/** Replacing the solve subgraph by one Solve node, or by Slice, Solve and Concat over heads. */
module SolveInsertion {
  import opened Graphs
  import opened ChunkNames

  /** The nodes whose index is not removed, in order. */
  function Kept(nodes: seq<Node>, removed: set<int>, base: int): seq<Node> {
    if nodes == [] then []
    else if base in removed then Kept(nodes[1..], removed, base + 1)
    else [nodes[0]] + Kept(nodes[1..], removed, base + 1)
  }

  function ChunkPair(A: string, i: nat): seq<Node> {
    [Node(Slice, [A, Name(Start, i), Name(End, i), Name(Axis, i)], [Name(ChunkIn, i)]),
     Node(Solve, [Name(ChunkIn, i)], [Name(ChunkOut, i)])]
  }

  function ChunkNodes(A: string, n: nat): seq<Node> {
    if n == 0 then [] else ChunkNodes(A, n - 1) + ChunkPair(A, n - 1)
  }

  function ChunkOuts(n: nat): (xs: seq<string>)
    ensures |xs| == n && forall i :: 0 <= i < n ==> xs[i] == Name(ChunkOut, i)
  {
    if n == 0 then [] else ChunkOuts(n - 1) + [Name(ChunkOut, n - 1)]
  }

  /** One Solve, or n slices, n solves and a concatenation. */
  function NewNodes(A: string, T: string, n: nat): seq<Node> {
    if n <= 1 then [Node(Solve, [A], [T])]
    else ChunkNodes(A, n) + [Node(Concat, ChunkOuts(n), [T])]
  }

  /** The constants the slices read. */
  function Constants<H>(n: nat, ch: nat): Env<H> {
    if n == 0 then map[]
    else Constants(n - 1, ch)[Name(Start, n - 1) := Ints([(n - 1) * ch])]
                             [Name(End, n - 1) := Ints([n * ch])][Name(Axis, n - 1) := Ints([1])]
  }

  /** Names of constants below n. */
  predicate IsConstant(x: string, n: nat) {
    n > 0 && (x == Name(Start, n - 1) || x == Name(End, n - 1) || x == Name(Axis, n - 1) || IsConstant(x, n - 1))
  }

  /** Names of chunk tensors below n. */
  predicate IsChunk(x: string, n: nat) {
    n > 0 && (x == Name(ChunkIn, n - 1) || x == Name(ChunkOut, n - 1) || IsChunk(x, n - 1))
  }

  /** A name the n-way split introduces. */
  predicate IsNew(x: string, n: nat) {
    n > 1 && (IsConstant(x, n) || IsChunk(x, n))
  }

  lemma {:induction false} ConstantNames<H>(n: nat, ch: nat, x: string)
    ensures x in Constants<H>(n, ch) <==> IsConstant(x, n)
  {
    hide Name;
    if n > 0 { ConstantNames<H>(n - 1, ch, x); }
  }

  lemma {:induction false} ConstantValues<H>(n: nat, ch: nat, i: nat)
    requires i < n
    ensures Get(Constants<H>(n, ch), Name(Start, i)) == Ints([i * ch])
    ensures Get(Constants<H>(n, ch), Name(End, i)) == Ints([(i + 1) * ch])
    ensures Get(Constants<H>(n, ch), Name(Axis, i)) == Ints([1])
  {
    hide Name;
    NamesDiffer(Start, i, Start, n - 1);
    NamesDiffer(Start, i, End, n - 1);
    NamesDiffer(Start, i, Axis, n - 1);
    NamesDiffer(End, i, Start, n - 1);
    NamesDiffer(End, i, End, n - 1);
    NamesDiffer(End, i, Axis, n - 1);
    NamesDiffer(Axis, i, Start, n - 1);
    NamesDiffer(Axis, i, End, n - 1);
    NamesDiffer(Axis, i, Axis, n - 1);
    if i < n - 1 { ConstantValues<H>(n - 1, ch, i); }
  }

  /** A name is of at most one kind and index. */
  lemma {:induction false} ConstantIndex(k: Kind, i: nat, n: nat)
    ensures IsConstant(Name(k, i), n) <==> (k.Start? || k.End? || k.Axis?) && i < n
    ensures IsChunk(Name(k, i), n) <==> (k.ChunkIn? || k.ChunkOut?) && i < n
  {
    hide Name;
    if n > 0 {
      ConstantIndex(k, i, n - 1);
      NamesDiffer(k, i, Start, n - 1);
      NamesDiffer(k, i, End, n - 1);
      NamesDiffer(k, i, Axis, n - 1);
      NamesDiffer(k, i, ChunkIn, n - 1);
      NamesDiffer(k, i, ChunkOut, n - 1);
    }
  }

  lemma {:induction false} ConstantNotChunk(x: string, n: nat, m: nat)
    ensures !(IsConstant(x, n) && IsChunk(x, m))
    ensures IsConstant(x, n) || IsChunk(x, n) ==> x != ""
  {
    hide Name;
    if n > 0 {
      ConstantNotChunk(x, n - 1, m);
      ConstantIndex(Start, n - 1, m);
      ConstantIndex(End, n - 1, m);
      ConstantIndex(Axis, n - 1, m);
      NamesDiffer(Start, n - 1, Start, 0);
      NamesDiffer(End, n - 1, Start, 0);
      NamesDiffer(Axis, n - 1, Start, 0);
      NamesDiffer(ChunkIn, n - 1, Start, 0);
      NamesDiffer(ChunkOut, n - 1, Start, 0);
    }
  }

  /** What the slices and solves of n chunks produce. */
  lemma {:induction false} ChunkOutputs(A: string, n: nat, x: string)
    ensures x in Outs(ChunkNodes(A, n)) <==> IsChunk(x, n)
  {
    hide Name;
    if n > 0 {
      ChunkOutputs(A, n - 1, x);
      OutsConcat(ChunkNodes(A, n - 1), ChunkPair(A, n - 1));
      PairOutputs(A, n - 1, x);
    }
  }

  lemma PairOutputs(A: string, i: nat, x: string)
    ensures x in Outs(ChunkPair(A, i)) <==> x == Name(ChunkIn, i) || x == Name(ChunkOut, i)
  {
    hide Name;
    NamesDiffer(ChunkIn, i, ChunkOut, i);
    NamesDiffer(ChunkOut, i, ChunkOut, i);
    var p := ChunkPair(A, i);
    assert p[1..] == [p[1]] && p[1..][1..] == [];
    assert Outs(p[1..]) == Names(p[1].outputs);
    assert Names(p[0].outputs) == {Name(ChunkIn, i)} && Names(p[1].outputs) == {Name(ChunkOut, i)};
  }

  lemma {:induction false} ChunkNodesWellFormed(A: string, n: nat, avail: set<string>)
    requires A != "" && A in avail
    requires forall x :: IsConstant(x, n) ==> x in avail
    requires forall x :: IsChunk(x, n) ==> x !in avail
    ensures WellFormed(ChunkNodes(A, n), avail)
  {
    hide Name;
    if n > 0 {
      ChunkNodesWellFormed(A, n - 1, avail);
      var before := ChunkNodes(A, n - 1);
      WellFormedConcat(before, ChunkPair(A, n - 1), avail);
      ChunkOutputs(A, n - 1, Name(ChunkIn, n - 1));
      ChunkOutputs(A, n - 1, Name(ChunkOut, n - 1));
      ConstantIndex(ChunkIn, n - 1, n - 1);
      ConstantIndex(ChunkOut, n - 1, n - 1);
      assert IsConstant(Name(Start, n - 1), n) && IsConstant(Name(End, n - 1), n) && IsConstant(Name(Axis, n - 1), n);
      assert IsChunk(Name(ChunkIn, n - 1), n) && IsChunk(Name(ChunkOut, n - 1), n);
      PairWellFormed(A, n - 1, avail + Outs(before));
    }
  }

  lemma PairWellFormed(A: string, i: nat, avail: set<string>)
    requires A in avail && Name(Start, i) in avail && Name(End, i) in avail && Name(Axis, i) in avail
    requires Name(ChunkIn, i) !in avail && Name(ChunkOut, i) !in avail
    ensures WellFormed(ChunkPair(A, i), avail)
  {
    hide Name;
    NamesDiffer(ChunkIn, i, ChunkOut, i);
    var p := ChunkPair(A, i);
    assert p[1..] == [p[1]] && p[1..][1..] == [];
    assert Names(p[0].outputs) == {Name(ChunkIn, i)};
    assert WellFormed(p[1..], avail + {Name(ChunkIn, i)});
  }

  /** The replacement is well-formed wherever A and the constants are available. */
  lemma NewNodesWellFormed(A: string, T: string, n: nat, avail: set<string>)
    requires A != "" && T != "" && A in avail && T !in avail && !IsNew(T, n)
    requires n > 1 ==> forall x :: IsConstant(x, n) ==> x in avail
    requires forall x :: IsNew(x, n) && IsChunk(x, n) ==> x !in avail
    ensures WellFormed(NewNodes(A, T, n), avail)
  {
    hide Name;
    if n <= 1 {
      var single := NewNodes(A, T, n);
      assert single[1..] == [];
    } else {
      ChunkNodesWellFormed(A, n, avail);
      var chunks, join := ChunkNodes(A, n), [Node(Concat, ChunkOuts(n), [T])];
      WellFormedConcat(chunks, join, avail);
      OutsConcat(chunks, join);
      assert join[1..] == [];
      forall x | x in Names(ChunkOuts(n))
        ensures x in Outs(chunks)
      {
        var i :| 0 <= i < n && ChunkOuts(n)[i] == x;
        ConstantIndex(ChunkOut, i, n);
        ChunkOutputs(A, n, x);
      }
      ChunkOutputs(A, n, T);
      forall x | x in Outs(chunks)
        ensures IsChunk(x, n)
      {
        ChunkOutputs(A, n, x);
      }
    }
  }

  lemma NewOuts(A: string, T: string, n: nat, x: string)
    requires T != ""
    ensures x in Outs(NewNodes(A, T, n)) <==> x == T || (n > 1 && IsChunk(x, n))
  {
    if n <= 1 {
      assert NewNodes(A, T, n)[1..] == [];
    } else {
      var join := [Node(Concat, ChunkOuts(n), [T])];
      OutsConcat(ChunkNodes(A, n), join);
      ChunkOutputs(A, n, x);
      assert join[1..] == [];
    }
  }

  /** keep with the new nodes right behind the first node that produces A; keep itself if none does. */
  function Splice(keep: seq<Node>, A: string, added: seq<Node>): seq<Node> {
    if keep == [] then []
    else if A in keep[0].outputs then [keep[0]] + added + keep[1..]
    else [keep[0]] + Splice(keep[1..], A, added)
  }

  predicate Produces(nodes: seq<Node>, A: string) {
    exists k :: 0 <= k < |nodes| && A in nodes[k].outputs
  }

  /** The rewritten list: spliced behind A's producer, or in front when A is a source. */
  function Rewritten(keep: seq<Node>, A: string, added: seq<Node>): seq<Node> {
    if Produces(keep, A) then Splice(keep, A, added) else added + keep
  }

  /** How the removed set sits in the graph, relative to what the rewrite hides (gone) and adds. */
  ghost predicate Clean(nodes: seq<Node>, base: int, removed: set<int>, gone: set<string>, added: set<string>,
                        avail: set<string>) {
    forall k :: 0 <= k < |nodes| ==>
      if base + k in removed then forall x :: x in Names(nodes[k].outputs) ==> x in gone || x in avail
      else Names(nodes[k].inputs) !! gone && Names(nodes[k].outputs) !! added
  }

  /** Every old name is still available or hidden, and nothing is available but old and added names. */
  ghost predicate Tracks(avail: set<string>, now: set<string>, gone: set<string>, added: set<string>) {
    (forall x :: x in avail ==> x in now || x in gone) && now <= avail + added
  }

  lemma CleanTail(nodes: seq<Node>, base: int, removed: set<int>, gone: set<string>, added: set<string>,
                  avail: set<string>, more: set<string>)
    requires nodes != [] && Clean(nodes, base, removed, gone, added, avail)
    ensures Clean(nodes[1..], base + 1, removed, gone, added, avail + more)
  {
    forall k | 0 <= k < |nodes[1..]|
      ensures nodes[1..][k] == nodes[k + 1] && base + 1 + k == base + (k + 1)
    {
    }
  }

  /** Dropping the removed nodes keeps a well-formed list well-formed. */
  lemma {:induction false} KeptWellFormed(nodes: seq<Node>, base: int, removed: set<int>, avail: set<string>,
                                          now: set<string>, gone: set<string>, added: set<string>)
    requires WellFormed(nodes, avail) && Tracks(avail, now, gone, added)
             && Clean(nodes, base, removed, gone, added, now)
    ensures WellFormed(Kept(nodes, removed, base), now)
  {
    if nodes != [] {
      var outs := Names(nodes[0].outputs);
      if base in removed {
        CleanTail(nodes, base, removed, gone, added, now, {});
        assert now + {} == now;
        KeptWellFormed(nodes[1..], base + 1, removed, avail + outs, now, gone, added);
      } else {
        CleanTail(nodes, base, removed, gone, added, now, outs);
        KeptWellFormed(nodes[1..], base + 1, removed, avail + outs, now + outs, gone, added);
        var rest := Kept(nodes[1..], removed, base + 1);
        assert ([nodes[0]] + rest)[1..] == rest;
      }
    }
  }

  /** Nothing removed before A's producer makes T; the producer itself stays. */
  ghost predicate ProducedAt(nodes: seq<Node>, base: int, removed: set<int>, A: string, pa: int) {
    && base <= pa < base + |nodes| && pa !in removed && A in nodes[pa - base].outputs
    && forall k :: 0 <= k < pa - base ==> A !in nodes[k].outputs
  }

  /** The same with T coming back only behind A's producer. */
  ghost predicate CleanUntil(nodes: seq<Node>, base: int, removed: set<int>, gone: set<string>, added: set<string>,
                             T: string, pa: int) {
    forall k :: 0 <= k < |nodes| ==>
      if base + k in removed then forall x :: x in Names(nodes[k].outputs) ==> x in gone || (x == T && base + k > pa)
      else Names(nodes[k].inputs) !! gone && Names(nodes[k].outputs) !! added
  }

  lemma {:induction false} SplicedWellFormed(nodes: seq<Node>, base: int, removed: set<int>, avail: set<string>,
                                             now: set<string>, gone: set<string>, A: string, T: string, n: nat, pa: int)
    requires A != "" && T != "" && !IsNew(T, n)
    requires WellFormed(nodes, avail) && Tracks(avail, now, gone, Outs(NewNodes(A, T, n)))
    requires now !! Outs(NewNodes(A, T, n)) && (n > 1 ==> forall x :: IsConstant(x, n) ==> x in now)
    requires CleanUntil(nodes, base, removed, gone, Outs(NewNodes(A, T, n)), T, pa)
             && ProducedAt(nodes, base, removed, A, pa)
    ensures Produces(Kept(nodes, removed, base), A)
    ensures WellFormed(Splice(Kept(nodes, removed, base), A, NewNodes(A, T, n)), now)
  {
    var added := NewNodes(A, T, n);
    var outs := Names(nodes[0].outputs);
    var rest := Kept(nodes[1..], removed, base + 1);
    var keep := Kept(nodes, removed, base);
    if base == pa {
      assert keep == [nodes[0]] + rest && keep[1..] == rest;
      SpliceHere(nodes, base, removed, avail, now, gone, A, T, n);
      assert keep[0] == nodes[0];
    } else {
      ProducedTail(nodes, base, removed, A, pa);
      CleanUntilTail(nodes, base, removed, gone, Outs(added), T, pa);
      if base in removed {
        SplicedWellFormed(nodes[1..], base + 1, removed, avail + outs, now, gone, A, T, n, pa);
      } else {
        SplicedWellFormed(nodes[1..], base + 1, removed, avail + outs, now + outs, gone, A, T, n, pa);
        assert keep == [nodes[0]] + rest && keep[1..] == rest;
        var tail := Splice(rest, A, added);
        assert ([nodes[0]] + tail)[1..] == tail;
        var k :| 0 <= k < |rest| && A in rest[k].outputs;
        assert keep[k + 1] == rest[k];
      }
    }
  }

  lemma ProducedTail(nodes: seq<Node>, base: int, removed: set<int>, A: string, pa: int)
    requires nodes != [] && ProducedAt(nodes, base, removed, A, pa) && base != pa
    ensures ProducedAt(nodes[1..], base + 1, removed, A, pa)
  {
    forall k | 0 <= k < |nodes[1..]|
      ensures nodes[1..][k] == nodes[k + 1]
    {
    }
  }

  lemma CleanUntilTail(nodes: seq<Node>, base: int, removed: set<int>, gone: set<string>, added: set<string>,
                       T: string, pa: int)
    requires nodes != [] && CleanUntil(nodes, base, removed, gone, added, T, pa)
    ensures CleanUntil(nodes[1..], base + 1, removed, gone, added, T, pa)
  {
    forall k | 0 <= k < |nodes[1..]|
      ensures nodes[1..][k] == nodes[k + 1] && base + 1 + k == base + (k + 1)
    {
    }
  }

  /** The splice point itself: A's producer, the replacement, then the rest with T available again. */
  lemma SpliceHere(nodes: seq<Node>, base: int, removed: set<int>, avail: set<string>, now: set<string>,
                   gone: set<string>, A: string, T: string, n: nat)
    requires A != "" && T != "" && !IsNew(T, n)
    requires WellFormed(nodes, avail) && Tracks(avail, now, gone, Outs(NewNodes(A, T, n)))
    requires now !! Outs(NewNodes(A, T, n)) && (n > 1 ==> forall x :: IsConstant(x, n) ==> x in now)
    requires CleanUntil(nodes, base, removed, gone, Outs(NewNodes(A, T, n)), T, base)
             && ProducedAt(nodes, base, removed, A, base)
    ensures WellFormed([nodes[0]] + NewNodes(A, T, n) + Kept(nodes[1..], removed, base + 1), now)
  {
    var added := NewNodes(A, T, n);
    var outs := Names(nodes[0].outputs);
    var rest := Kept(nodes[1..], removed, base + 1);
    var after := now + outs + Outs(added);
    NewOuts(A, T, n, T);
    forall x | n > 1 && IsChunk(x, n)
      ensures x in Outs(added)
    {
      NewOuts(A, T, n, x);
    }
    NewNodesWellFormed(A, T, n, now + outs);
    CleanUntilTail(nodes, base, removed, gone, Outs(added), T, base);
    assert Clean(nodes[1..], base + 1, removed, gone, Outs(added), after);
    KeptWellFormed(nodes[1..], base + 1, removed, avail + outs, after, gone, Outs(added));
    WellFormedConcat(added, rest, now + outs);
    var tail := added + rest;
    assert ([nodes[0]] + tail)[1..] == tail;
    assert [nodes[0]] + added + rest == [nodes[0]] + tail;
  }
}
