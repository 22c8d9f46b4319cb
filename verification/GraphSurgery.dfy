/** The surgery on a whole graph: what it removes, what it leaves, and that nothing else changes. */
module GraphSurgery {
  import opened Graphs
  import opened Ancestry
  import opened ChunkNames
  import opened SolveInsertion

  /** Node m's names seen from the whole list. */
  lemma WellFormedAt(nodes: seq<Node>, avail: set<string>, m: nat)
    requires WellFormed(nodes, avail) && m < |nodes|
    ensures Names(nodes[m].inputs) <= avail + Outs(nodes[..m])
    ensures Names(nodes[m].outputs) !! avail + Outs(nodes[..m])
  {
    assert nodes == nodes[..m] + nodes[m..];
    WellFormedConcat(nodes[..m], nodes[m..], avail);
  }

  /** In a well-formed list a name has one producing node, and it is no source. */
  lemma UniqueProducer(nodes: seq<Node>, avail: set<string>, x: string, k: nat)
    requires WellFormed(nodes, avail) && k < |nodes| && x != "" && x in nodes[k].outputs
    ensures Producer(nodes, x) == k && x !in avail && x in Outs(nodes)
  {
    OutsMember(nodes, x);
    var m := Producer(nodes, x);
    WellFormedAt(nodes, avail, m);
    WellFormedAt(nodes, avail, k);
    if m < k {
      assert nodes[..k][m] == nodes[m];
      OutsMember(nodes[..k], x);
    } else if k < m {
      assert nodes[..m][k] == nodes[k];
      OutsMember(nodes[..m], x);
    }
  }

  lemma ReadsEarlier(nodes: seq<Node>, avail: set<string>, m: int, n: int)
    requires WellFormed(nodes, avail) && Reads(nodes, m, n) && n >= 0
    ensures n < m
  {
    var x :| x in Names(nodes[m].inputs) && Producer(nodes, x) == n;
    WellFormedAt(nodes, avail, m);
    UniqueProducer(nodes, avail, x, n);
    OutsMember(nodes[..m], x);
    var k :| 0 <= k < |nodes[..m]| && x in nodes[..m][k].outputs;
    UniqueProducer(nodes, avail, x, k);
  }

  lemma {:induction false} ChainDescends(nodes: seq<Node>, avail: set<string>, t: string, p: seq<int>)
    requires WellFormed(nodes, avail) && Chain(nodes, t, p)
    ensures p[|p| - 1] <= p[0]
  {
    hide WellFormed, Reads;
    if |p| > 1 {
      ChainFront(nodes, t, p);
      ChainDescends(nodes, avail, t, p[..|p| - 1]);
      ReadsEarlier(nodes, avail, p[|p| - 2], p[|p| - 1]);
    }
  }

  /** Everything a tensor depends on comes no later than its producer. */
  lemma ReachedEarlier(nodes: seq<Node>, avail: set<string>, t: string, n: int)
    requires WellFormed(nodes, avail) && Reaches(nodes, t, n)
    ensures n <= Producer(nodes, t)
  {
    var p :| Chain(nodes, t, p) && p[|p| - 1] == n;
    ChainDescends(nodes, avail, t, p);
  }

  /** The nodes reaching T but not A. */
  ghost predicate IsSolveSet(nodes: seq<Node>, A: string, T: string, removed: set<int>) {
    forall n :: n in removed <==> Reaches(nodes, T, n) && !Reaches(nodes, A, n)
  }

  predicate RemovedOut(nodes: seq<Node>, removed: set<int>, x: string) {
    x != "" && exists m :: m in removed && 0 <= m < |nodes| && x in nodes[m].outputs
  }

  /** No kept node reads what a removed one made, T excepted. */
  ghost predicate NoLeak(nodes: seq<Node>, removed: set<int>, T: string) {
    forall k, x :: 0 <= k < |nodes| && k !in removed && x in Names(nodes[k].inputs) && x != T ==>
      !RemovedOut(nodes, removed, x)
  }

  /**
   The graphs the surgery is for: single-assignment, topologically ordered, A a source or a
   strict ancestor of T, and none of the names the split introduces already in use.
   */
  ghost predicate Boundary(nodes: seq<Node>, sources: set<string>, A: string, T: string, n: nat) {
    && WellFormed(nodes, sources) && "" !in sources
    && A != "" && T != "" && A in sources + Outs(nodes)
    && Producer(nodes, T) >= 0 && !Reaches(nodes, A, Producer(nodes, T))
    && (A in sources || Reaches(nodes, T, Producer(nodes, A)))
    && forall x :: x in sources + Outs(nodes) ==> !IsNew(x, n)
  }

  /** All names a list reads. */
  function Used(nodes: seq<Node>): set<string> {
    if nodes == [] then {} else Names(nodes[0].inputs) + Used(nodes[1..])
  }

  lemma {:induction false} UsedMember(nodes: seq<Node>, k: nat)
    requires k < |nodes|
    ensures Names(nodes[k].inputs) <= Used(nodes)
  {
    if k > 0 { UsedMember(nodes[1..], k - 1); }
  }

  lemma {:induction false} UsedIff(nodes: seq<Node>, x: string)
    ensures x in Used(nodes) <==> exists n :: n in nodes && x in Names(n.inputs)
  {
    if nodes != [] {
      UsedIff(nodes[1..], x);
      forall n
        ensures n in nodes <==> n == nodes[0] || n in nodes[1..]
      {
      }
    }
  }

  lemma {:induction false} UsedConcat(a: seq<Node>, b: seq<Node>)
    ensures Used(a + b) == Used(a) + Used(b)
  {
    if a == [] {
      assert a + b == b;
    } else {
      assert (a + b)[1..] == a[1..] + b;
      UsedConcat(a[1..], b);
    }
  }

  lemma {:induction false} KeptMember(nodes: seq<Node>, removed: set<int>, base: int, k: nat)
    requires k < |nodes| && base + k !in removed
    ensures nodes[k] in Kept(nodes, removed, base)
  {
    if k > 0 {
      KeptMember(nodes[1..], removed, base + 1, k - 1);
    }
  }

  lemma {:induction false} KeptOrigin(nodes: seq<Node>, removed: set<int>, base: int, n: Node)
    requires n in Kept(nodes, removed, base)
    ensures exists k :: 0 <= k < |nodes| && base + k !in removed && nodes[k] == n
  {
    if base !in removed && nodes[0] == n {
      assert base + 0 !in removed;
    } else {
      KeptOrigin(nodes[1..], removed, base + 1, n);
      var k :| 0 <= k < |nodes[1..]| && base + 1 + k !in removed && nodes[1..][k] == n;
      assert base + (k + 1) !in removed && nodes[k + 1] == n;
    }
  }

  lemma {:induction false} SpliceMembers(keep: seq<Node>, A: string, added: seq<Node>, n: Node)
    requires Produces(keep, A)
    ensures n in Splice(keep, A, added) <==> n in keep || n in added
  {
    if A !in keep[0].outputs {
      var k :| 0 <= k < |keep| && A in keep[k].outputs;
      assert keep[1..][k - 1] == keep[k];
      SpliceMembers(keep[1..], A, added, n);
    }
  }

  lemma RewrittenMembers(keep: seq<Node>, A: string, added: seq<Node>, n: Node)
    ensures n in Rewritten(keep, A, added) <==> n in keep || n in added
  {
    if Produces(keep, A) { SpliceMembers(keep, A, added, n); }
  }

  /** The new node list. */
  function NewList(nodes: seq<Node>, removed: set<int>, A: string, T: string, n: nat): seq<Node> {
    Rewritten(Kept(nodes, removed, 0), A, NewNodes(A, T, n))
  }

  /** Sources the new list still has: constants and initializers all, graph inputs only when read. */
  function KeptSources(sources: set<string>, inits: set<string>, list: seq<Node>): set<string> {
    set x | x in sources && (x in inits || x in Used(list))
  }

  ghost function ConstantSet(n: nat): (s: set<string>)
    ensures forall x :: x in s <==> n > 1 && IsConstant(x, n)
  {
    if n > 1 then
      forall x
        ensures x in Constants<int>(n, 0) <==> IsConstant(x, n)
      {
        ConstantNames<int>(n, 0, x);
      }
      Constants<int>(n, 0).Keys
    else {}
  }

  /** What the rewrite hides: removed outputs other than T, and dropped sources. */
  ghost function Hidden(nodes: seq<Node>, removed: set<int>, T: string, sources: set<string>,
                        now: set<string>): set<string> {
    (set x | x in Outs(nodes) && RemovedOut(nodes, removed, x) && x != T) + (sources - now)
  }

  lemma {:induction false} MoreAvailable(nodes: seq<Node>, avail: set<string>, more: set<string>)
    requires WellFormed(nodes, avail) && more !! Outs(nodes)
    ensures WellFormed(nodes, avail + more)
  {
    if nodes != [] {
      var outs := Names(nodes[0].outputs);
      MoreAvailable(nodes[1..], avail + outs, more);
      assert avail + outs + more == avail + more + outs;
    }
  }

  /** A's producer survives and comes before T's. */
  lemma BoundaryOrder(nodes: seq<Node>, sources: set<string>, A: string, T: string, n: nat, removed: set<int>)
    requires Boundary(nodes, sources, A, T, n) && IsSolveSet(nodes, A, T, removed)
    ensures Producer(nodes, T) in removed
    ensures A !in sources ==>
              ProducedAt(nodes, 0, removed, A, Producer(nodes, A)) && Producer(nodes, A) < Producer(nodes, T)
  {
    ReachProducer(nodes, T);
    if A !in sources {
      OutsMember(nodes, A);
      var pa := Producer(nodes, A);
      ReachProducer(nodes, A);
      ReachedEarlier(nodes, sources, T, pa);
      forall k | 0 <= k < pa
        ensures A !in nodes[k].outputs
      {
        if A in nodes[k].outputs { UniqueProducer(nodes, sources, A, k); }
      }
    }
  }

  lemma RemovedMakes(nodes: seq<Node>, sources: set<string>, A: string, T: string, n: nat, removed: set<int>,
                     now: set<string>, k: int, x: string)
    requires Boundary(nodes, sources, A, T, n) && 0 <= k < |nodes| && k in removed && x in Names(nodes[k].outputs)
    ensures x in Hidden(nodes, removed, T, sources, now) || (x == T && k == Producer(nodes, T))
  {
    UniqueProducer(nodes, sources, x, k);
  }

  lemma HiddenWhy(nodes: seq<Node>, removed: set<int>, T: string, sources: set<string>, now: set<string>, x: string)
    requires x in Hidden(nodes, removed, T, sources, now)
    ensures (RemovedOut(nodes, removed, x) && x != T) || (x in sources && x !in now)
  {
  }

  lemma KeptReads(nodes: seq<Node>, sources: set<string>, inits: set<string>, A: string, T: string, n: nat,
                  removed: set<int>, k: int, x: string)
    requires NoLeak(nodes, removed, T) && 0 <= k < |nodes| && k !in removed && x in Names(nodes[k].inputs)
    ensures x !in Hidden(nodes, removed, T, sources,
                         KeptSources(sources, inits, NewList(nodes, removed, A, T, n)) + ConstantSet(n))
  {
    hide Hidden, RemovedOut, ConstantSet, Kept, Rewritten, Used;
    var list := NewList(nodes, removed, A, T, n);
    var now := KeptSources(sources, inits, list) + ConstantSet(n);
    KeptMember(nodes, removed, 0, k);
    RewrittenMembers(Kept(nodes, removed, 0), A, NewNodes(A, T, n), nodes[k]);
    var j :| 0 <= j < |list| && list[j] == nodes[k];
    UsedMember(list, j);
    if x in Hidden(nodes, removed, T, sources, now) { HiddenWhy(nodes, removed, T, sources, now, x); }
  }

  lemma KeptMakes(nodes: seq<Node>, sources: set<string>, A: string, T: string, n: nat, removed: set<int>, k: int,
                  x: string)
    requires Boundary(nodes, sources, A, T, n) && Producer(nodes, T) in removed
    requires 0 <= k < |nodes| && k !in removed && x in Names(nodes[k].outputs)
    ensures x !in Outs(NewNodes(A, T, n))
  {
    hide NewNodes, Outs, WellFormed, Reaches;
    UniqueProducer(nodes, sources, x, k);
    NewOuts(A, T, n, x);
  }

  /** Removed nodes make only hidden names and T; kept nodes read nothing hidden and make nothing new. */
  lemma SurgeryClean(nodes: seq<Node>, sources: set<string>, inits: set<string>, A: string, T: string, n: nat,
                     removed: set<int>)
    requires Boundary(nodes, sources, A, T, n) && IsSolveSet(nodes, A, T, removed) && NoLeak(nodes, removed, T)
    ensures var list := NewList(nodes, removed, A, T, n);
            var now := KeptSources(sources, inits, list) + ConstantSet(n);
            forall k :: 0 <= k < |nodes| ==>
              if k in removed then forall x :: x in Names(nodes[k].outputs) ==>
                                     x in Hidden(nodes, removed, T, sources, now) || (x == T && k == Producer(nodes, T))
              else Names(nodes[k].inputs) !! Hidden(nodes, removed, T, sources, now)
                   && Names(nodes[k].outputs) !! Outs(NewNodes(A, T, n))
  {
    BoundaryOrder(nodes, sources, A, T, n, removed);
    hide Hidden, KeptSources, ConstantSet, NewList, NewNodes, Outs, Producer, NoLeak, Boundary, IsSolveSet, Names;
    var list := NewList(nodes, removed, A, T, n);
    var now := KeptSources(sources, inits, list) + ConstantSet(n);
    forall k, x | 0 <= k < |nodes| && k in removed && x in Names(nodes[k].outputs)
      ensures x in Hidden(nodes, removed, T, sources, now) || (x == T && k == Producer(nodes, T))
    {
      RemovedMakes(nodes, sources, A, T, n, removed, now, k, x);
    }
    forall k, x | 0 <= k < |nodes| && k !in removed && x in Names(nodes[k].inputs)
      ensures x !in Hidden(nodes, removed, T, sources, now)
    {
      KeptReads(nodes, sources, inits, A, T, n, removed, k, x);
    }
    forall k, x | 0 <= k < |nodes| && k !in removed && x in Names(nodes[k].outputs)
      ensures x !in Outs(NewNodes(A, T, n))
    {
      KeptMakes(nodes, sources, A, T, n, removed, k, x);
    }
  }

  /**
   The rewritten list is again single-assignment and topologically ordered, from the sources
   that are kept: in particular nothing reads a dropped input.
   */
  lemma RewriteWellFormed(nodes: seq<Node>, sources: set<string>, inits: set<string>, A: string, T: string, n: nat,
                          removed: set<int>)
    requires Boundary(nodes, sources, A, T, n) && IsSolveSet(nodes, A, T, removed) && NoLeak(nodes, removed, T)
    ensures var list := NewList(nodes, removed, A, T, n);
            WellFormed(list, KeptSources(sources, inits, list) + ConstantSet(n))
  {
    hide Producer, IsNew, Outs, NewNodes, WellFormed, Kept, Reaches;
    var list := NewList(nodes, removed, A, T, n);
    var now := KeptSources(sources, inits, list) + ConstantSet(n);
    var gone := Hidden(nodes, removed, T, sources, now);
    var added := NewNodes(A, T, n);
    BoundaryOrder(nodes, sources, A, T, n, removed);
    SurgeryClean(nodes, sources, inits, A, T, n, removed);
    NewNamesFresh(nodes, sources, A, T, n);
    MoreAvailable(nodes, sources, ConstantSet(n));
    var avail := sources + ConstantSet(n);
    assert Tracks(avail, now, gone, Outs(added));
    if A in sources {
      SourceSplice(nodes, sources, inits, A, T, n, removed);
    } else {
      var pa := Producer(nodes, A);
      assert CleanUntil(nodes, 0, removed, gone, Outs(added), T, pa);
      SplicedWellFormed(nodes, 0, removed, avail, now, gone, A, T, n, pa);
    }
  }

  lemma NewNamesFresh(nodes: seq<Node>, sources: set<string>, A: string, T: string, n: nat)
    requires Boundary(nodes, sources, A, T, n)
    ensures ConstantSet(n) !! Outs(nodes) && ConstantSet(n) !! sources && !IsNew(T, n)
    ensures Outs(NewNodes(A, T, n)) !! sources + ConstantSet(n)
  {
    UniqueProducer(nodes, sources, T, Producer(nodes, T));
    forall x | x in sources + ConstantSet(n)
      ensures x !in Outs(NewNodes(A, T, n))
    {
      NewOuts(A, T, n, x);
      ConstantNotChunk(x, n, n);
    }
  }

  /** A is a graph source: the replacement goes in front, and A stays a source. */
  lemma SourceFront(nodes: seq<Node>, sources: set<string>, inits: set<string>, A: string, T: string, n: nat,
                    removed: set<int>)
    requires Boundary(nodes, sources, A, T, n) && A in sources
    ensures var list := NewList(nodes, removed, A, T, n);
            && list == NewNodes(A, T, n) + Kept(nodes, removed, 0)
            && A in KeptSources(sources, inits, list)
  {
    hide WellFormed, NewNodes, Outs, Kept, Used, Reaches, Producer, IsNew;
    SourceNotProduced(nodes, sources, A, removed);
    SourceRead(A, T, n, Kept(nodes, removed, 0));
  }

  /** What the replacement makes is available behind it. */
  lemma NewNodesFirst(A: string, T: string, n: nat, now: set<string>)
    requires T != "" && !IsNew(T, n) && A != "" && A in now && ConstantSet(n) <= now && now !! Outs(NewNodes(A, T, n))
    ensures WellFormed(NewNodes(A, T, n), now)
    ensures T in Outs(NewNodes(A, T, n))
  {
    hide Outs, NewNodes, WellFormed;
    NewOuts(A, T, n, T);
    forall x | n > 1 && IsChunk(x, n)
      ensures x in Outs(NewNodes(A, T, n))
    {
      NewOuts(A, T, n, x);
    }
    NewNodesWellFormed(A, T, n, now);
  }

  lemma SourceSplice(nodes: seq<Node>, sources: set<string>, inits: set<string>, A: string, T: string, n: nat,
                     removed: set<int>)
    requires Boundary(nodes, sources, A, T, n) && IsSolveSet(nodes, A, T, removed) && NoLeak(nodes, removed, T)
             && A in sources
    ensures var list := NewList(nodes, removed, A, T, n);
            WellFormed(list, KeptSources(sources, inits, list) + ConstantSet(n))
  {
    hide Producer, IsNew, NewList, NewNodes, WellFormed, Outs, Kept, Reaches;
    var keep, added := Kept(nodes, removed, 0), NewNodes(A, T, n);
    var list := NewList(nodes, removed, A, T, n);
    var now := KeptSources(sources, inits, list) + ConstantSet(n);
    var gone := Hidden(nodes, removed, T, sources, now);
    SurgeryClean(nodes, sources, inits, A, T, n, removed);
    NewNamesFresh(nodes, sources, A, T, n);
    SourceFront(nodes, sources, inits, A, T, n, removed);
    NewNodesFirst(A, T, n, now);
    MoreAvailable(nodes, sources, ConstantSet(n));
    assert Clean(nodes, 0, removed, gone, Outs(added), now + Outs(added));
    KeptWellFormed(nodes, 0, removed, sources + ConstantSet(n), now + Outs(added), gone, Outs(added));
    WellFormedConcat(added, keep, now);
  }

  lemma SourceNotProduced(nodes: seq<Node>, sources: set<string>, A: string, removed: set<int>)
    requires WellFormed(nodes, sources) && A in sources && A != ""
    ensures !Produces(Kept(nodes, removed, 0), A)
  {
    var keep := Kept(nodes, removed, 0);
    if k :| 0 <= k < |keep| && A in keep[k].outputs {
      KeptOrigin(nodes, removed, 0, keep[k]);
      var m :| 0 <= m < |nodes| && 0 + m !in removed && nodes[m] == keep[k];
      UniqueProducer(nodes, sources, A, m);
    }
  }

  lemma PairReads(A: string, i: nat, x: string)
    requires A != ""
    ensures x in Used(ChunkPair(A, i)) <==>
              x == A || x == Name(Start, i) || x == Name(End, i) || x == Name(Axis, i) || x == Name(ChunkIn, i)
  {
    NamesDiffer(Start, i, Start, i);
    NamesDiffer(End, i, End, i);
    NamesDiffer(Axis, i, Axis, i);
    NamesDiffer(ChunkIn, i, ChunkIn, i);
    hide Name;
    var pair := ChunkPair(A, i);
    var slice := [A, Name(Start, i), Name(End, i), Name(Axis, i)];
    assert pair[0].inputs == slice && pair[1].inputs == [Name(ChunkIn, i)];
    assert x in slice <==> x == A || x == Name(Start, i) || x == Name(End, i) || x == Name(Axis, i);
    assert pair[1..] == [pair[1]] && pair[1..][1..] == [];
    assert Used(pair[1..]) == Names(pair[1].inputs) + Used([]);
  }

  lemma {:induction false} ChunksRead(A: string, m: nat, n: nat, x: string)
    requires A != "" && m <= n && n > 1 && !IsNew(x, n)
    ensures x in Used(ChunkNodes(A, m)) <==> m > 0 && x == A
  {
    if m > 0 {
      hide Name, IsConstant, IsChunk, ChunkPair;
      var i: nat := m - 1;
      ChunksRead(A, i, n, x);
      UsedConcat(ChunkNodes(A, i), ChunkPair(A, i));
      PairReads(A, i, x);
      ConstantIndex(Start, i, n);
      ConstantIndex(End, i, n);
      ConstantIndex(Axis, i, n);
      ConstantIndex(ChunkIn, i, n);
    }
  }

  /** Of the old names the replacement reads A alone. */
  lemma NewReads(A: string, T: string, n: nat, x: string)
    requires A != "" && !IsNew(x, n)
    ensures x in Used(NewNodes(A, T, n)) <==> x == A
  {
    if n <= 1 {
      assert NewNodes(A, T, n)[1..] == [];
    } else {
      hide Name, IsConstant, IsChunk, ChunkNodes;
      var join := [Node(Concat, ChunkOuts(n), [T])];
      UsedConcat(ChunkNodes(A, n), join);
      ChunksRead(A, n, n, x);
      assert join[1..] == [];
      forall i | 0 <= i < n
        ensures x != ChunkOuts(n)[i]
      {
        ConstantIndex(ChunkOut, i, n);
      }
    }
  }

  /** Some node that stays reads x. */
  ghost predicate ReadByKept(nodes: seq<Node>, removed: set<int>, x: string) {
    exists k :: 0 <= k < |nodes| && k !in removed && x in Names(nodes[k].inputs)
  }

  lemma KeptUses(nodes: seq<Node>, removed: set<int>, x: string)
    ensures x in Used(Kept(nodes, removed, 0)) <==> ReadByKept(nodes, removed, x)
  {
    hide Used, Kept, Names;
    var keep := Kept(nodes, removed, 0);
    UsedIff(keep, x);
    if x in Used(keep) {
      var m :| m in keep && x in Names(m.inputs);
      KeptOrigin(nodes, removed, 0, m);
      var k :| 0 <= k < |nodes| && 0 + k !in removed && nodes[k] == m;
      assert x in Names(nodes[k].inputs);
    }
    if ReadByKept(nodes, removed, x) {
      var k :| 0 <= k < |nodes| && k !in removed && x in Names(nodes[k].inputs);
      KeptMember(nodes, removed, 0, k);
    }
  }

  /** What the rewritten list reads among the old names, told from the old graph: A, and what kept nodes read. */
  lemma OldNamesUsed(nodes: seq<Node>, removed: set<int>, A: string, T: string, n: nat, x: string)
    requires A != "" && !IsNew(x, n)
    ensures x in Used(NewList(nodes, removed, A, T, n)) <==> x == A || ReadByKept(nodes, removed, x)
  {
    hide Kept, NewNodes, Rewritten, ReadByKept, IsNew, Used;
    var keep, added := Kept(nodes, removed, 0), NewNodes(A, T, n);
    var list := Rewritten(keep, A, added);
    forall m
      ensures m in list <==> m in keep || m in added
    {
      RewrittenMembers(keep, A, added, m);
    }
    UsedIff(list, x);
    UsedIff(keep, x);
    UsedIff(added, x);
    KeptUses(nodes, removed, x);
    NewReads(A, T, n, x);
  }

  lemma SourceRead(A: string, T: string, n: nat, keep: seq<Node>)
    requires A != "" && !IsNew(A, n)
    ensures A in Used(NewNodes(A, T, n) + keep)
  {
    UsedConcat(NewNodes(A, T, n), keep);
    NewReads(A, T, n, A);
  }
}
