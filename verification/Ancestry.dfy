/** Backward reachability over producers: the worklist and what it returns. */
module Ancestry {
  import opened Graphs

  /** The node recorded as producing t: the last one that lists it. -1 when nothing does. */
  function Producer(nodes: seq<Node>, t: string): (k: int)
    ensures -1 <= k < |nodes|
    ensures k >= 0 ==> t in nodes[k].outputs
    ensures k < 0 ==> forall m :: 0 <= m < |nodes| ==> t !in nodes[m].outputs
  {
    if nodes == [] then -1
    else if t in nodes[|nodes| - 1].outputs then |nodes| - 1
    else Producer(nodes[..|nodes| - 1], t)
  }

  /** Node m reads, by a non-empty name, something node n produces. */
  ghost predicate Reads(nodes: seq<Node>, m: int, n: int) {
    0 <= m < |nodes| && exists x :: x in Names(nodes[m].inputs) && Producer(nodes, x) == n
  }

  /** p is a chain of producers starting at the producer of t, each read by the one before. */
  ghost predicate Chain(nodes: seq<Node>, t: string, p: seq<int>) {
    && |p| > 0 && p[0] == Producer(nodes, t)
    && (forall i :: 0 <= i < |p| ==> 0 <= p[i] < |nodes|)
    && forall i {:trigger p[i]} :: 1 <= i < |p| ==> Reads(nodes, p[i - 1], p[i])
  }

  /** Node n is backward-reachable from tensor t. */
  ghost predicate Reaches(nodes: seq<Node>, t: string, n: int) {
    exists p :: Chain(nodes, t, p) && p[|p| - 1] == n
  }

  lemma ReachProducer(nodes: seq<Node>, t: string)
    ensures Producer(nodes, t) >= 0 ==> Reaches(nodes, t, Producer(nodes, t))
  {
    if Producer(nodes, t) >= 0 {
      var p := [Producer(nodes, t)];
      assert Chain(nodes, t, p) && p[|p| - 1] == Producer(nodes, t);
    }
  }

  lemma ReadsBound(nodes: seq<Node>, m: int, n: int)
    requires Reads(nodes, m, n)
    ensures n < |nodes|
  {
  }

  lemma ChainExtends(nodes: seq<Node>, t: string, p: seq<int>, n: int)
    requires Chain(nodes, t, p) && Reads(nodes, p[|p| - 1], n) && 0 <= n < |nodes|
    ensures Chain(nodes, t, p + [n])
  {
    hide Reads, Producer;
  }

  /** A chain without its last element is a chain to a node that reads it. */
  lemma ChainFront(nodes: seq<Node>, t: string, p: seq<int>)
    requires Chain(nodes, t, p) && |p| > 1
    ensures Chain(nodes, t, p[..|p| - 1]) && Reads(nodes, p[|p| - 2], p[|p| - 1])
  {
    hide Reads, Producer;
    var q := p[..|p| - 1];
    assert forall i :: 0 <= i < |q| ==> q[i] == p[i];
  }

  lemma ReachStep(nodes: seq<Node>, t: string, m: int, n: int)
    requires Reaches(nodes, t, m) && Reads(nodes, m, n) && n >= 0
    ensures Reaches(nodes, t, n)
  {
    ReadsBound(nodes, m, n);
    hide Reads, Producer, Chain;
    var p :| Chain(nodes, t, p) && p[|p| - 1] == m;
    ChainExtends(nodes, t, p, n);
    assert (p + [n])[|p + [n]| - 1] == n;
  }

  /** seen is closed under producers and holds the start's, so it holds every chain. */
  lemma {:induction false} ClosedHoldsChain(nodes: seq<Node>, t: string, seen: set<int>, p: seq<int>)
    requires Chain(nodes, t, p) && Producer(nodes, t) in seen
    requires forall m, n :: m in seen && n >= 0 && Reads(nodes, m, n) ==> n in seen
    ensures p[|p| - 1] in seen
  {
    hide Reads, Producer;
    if |p| > 1 {
      ChainFront(nodes, t, p);
      ClosedHoldsChain(nodes, t, seen, p[..|p| - 1]);
    }
  }

  /** Every pending or seen item is justified by the start. */
  ghost predicate Justified(nodes: seq<Node>, start: string, seen: set<int>, stack: seq<string>) {
    && (forall n :: n in seen ==> 0 <= n < |nodes| && Reaches(nodes, start, n))
    && forall x :: x in stack ==> x == start || exists m :: m in seen && x in Names(nodes[m].inputs)
  }

  /** Whatever a seen node reads is seen or still pending. */
  ghost predicate Covered(nodes: seq<Node>, start: string, seen: set<int>, stack: seq<string>) {
    && (start in stack || Producer(nodes, start) < 0 || Producer(nodes, start) in seen)
    && forall m, x :: m in seen && 0 <= m < |nodes| && x in Names(nodes[m].inputs) ==>
         x in stack || Producer(nodes, x) < 0 || Producer(nodes, x) in seen
  }

  /** The names pushed for one node: its non-empty inputs, in order. */
  method PushInputs(stack: seq<string>, xs: seq<string>) returns (r: seq<string>)
    ensures forall x :: x in r <==> x in stack || x in Names(xs)
  {
    r := stack;
    for i := 0 to |xs|
      invariant forall x :: x in r <==> x in stack || x in Names(xs[..i])
    {
      assert xs[..i + 1] == xs[..i] + [xs[i]];
      if xs[i] != "" { r := r + [xs[i]]; }
    }
    assert xs[..|xs|] == xs;
  }

  ghost function Ids(n: nat): (s: set<int>)
    ensures forall i :: i in s <==> 0 <= i < n
  {
    if n == 0 then {} else Ids(n - 1) + {n - 1}
  }

  lemma VisitKeeps(nodes: seq<Node>, start: string, seen: set<int>, stack: seq<string>, rest: seq<string>, t: string,
                   n: int, next: seq<string>)
    requires Justified(nodes, start, seen, stack) && Covered(nodes, start, seen, stack) && stack == rest + [t]
    requires n == Producer(nodes, t) >= 0 && n !in seen
    requires forall x :: x in next <==> x in rest || x in Names(nodes[n].inputs)
    ensures Justified(nodes, start, seen + {n}, next) && Covered(nodes, start, seen + {n}, next)
  {
    hide Producer, Reaches;
    VisitJustified(nodes, start, seen, stack, t);
    forall x | x in next
      ensures x == start || exists m :: m in seen + {n} && x in Names(nodes[m].inputs)
    {
      if x in Names(nodes[n].inputs) {
        assert n in seen + {n};
      } else {
        assert x in stack;
        if x != start {
          var m :| m in seen && x in Names(nodes[m].inputs);
          assert m in seen + {n};
        }
      }
    }
  }

  lemma StartKeeps(nodes: seq<Node>, start: string)
    ensures Justified(nodes, start, {}, [start]) && Covered(nodes, start, {}, [start])
  {
  }

  lemma JustifiedReaches(nodes: seq<Node>, start: string, seen: set<int>, stack: seq<string>)
    requires Justified(nodes, start, seen, stack)
    ensures forall n :: n in seen ==> 0 <= n < |nodes| && Reaches(nodes, start, n)
  {
  }

  lemma PopKeeps(nodes: seq<Node>, start: string, seen: set<int>, stack: seq<string>, rest: seq<string>, t: string)
    requires Justified(nodes, start, seen, stack) && Covered(nodes, start, seen, stack) && stack == rest + [t]
    requires Producer(nodes, t) < 0 || Producer(nodes, t) in seen
    ensures Justified(nodes, start, seen, rest) && Covered(nodes, start, seen, rest)
  {
    hide Producer, Reaches;
    forall x | x in rest
      ensures x == start || exists m :: m in seen && x in Names(nodes[m].inputs)
    {
      assert x in stack;
    }
  }

  /** Exactly the producers backward-reachable from start, on any graph, cyclic ones included. */
  method Ancestors(nodes: seq<Node>, start: string) returns (seen: set<int>)
    ensures forall n :: n in seen <==> Reaches(nodes, start, n)
    ensures forall n :: n in seen ==> 0 <= n < |nodes|
  {
    hide Justified, Covered;
    seen := {};
    var stack := [start];
    StartKeeps(nodes, start);
    ghost var all := Ids(|nodes|);
    while stack != []
      invariant seen <= all && Justified(nodes, start, seen, stack) && Covered(nodes, start, seen, stack)
      decreases all - seen, |stack|
    {
      var t := stack[|stack| - 1];
      var rest := stack[..|stack| - 1];
      assert stack == rest + [t];
      var n := Producer(nodes, t);
      if n < 0 || n in seen {
        PopKeeps(nodes, start, seen, stack, rest, t);
        stack := rest;
      } else {
        var next := PushInputs(rest, nodes[n].inputs);
        VisitKeeps(nodes, start, seen, stack, rest, t, n, next);
        assert n in all - seen && n !in all - (seen + {n});
        seen, stack := seen + {n}, next;
      }
    }
    JustifiedReaches(nodes, start, seen, stack);
    forall n | Reaches(nodes, start, n)
      ensures n in seen
    {
      AllReachedSeen(nodes, start, seen, n);
    }
  }

  lemma VisitJustified(nodes: seq<Node>, start: string, seen: set<int>, stack: seq<string>, t: string)
    requires Justified(nodes, start, seen, stack) && t in stack && Producer(nodes, t) >= 0
    ensures Reaches(nodes, start, Producer(nodes, t))
  {
    if t == start {
      ReachProducer(nodes, start);
    } else {
      var m :| m in seen && t in Names(nodes[m].inputs);
      assert Reads(nodes, m, Producer(nodes, t));
      ReachStep(nodes, start, m, Producer(nodes, t));
    }
  }

  lemma AllReachedSeen(nodes: seq<Node>, start: string, seen: set<int>, n: int)
    requires Covered(nodes, start, seen, []) && Reaches(nodes, start, n)
    requires forall m :: m in seen ==> 0 <= m < |nodes|
    ensures n in seen
  {
    var p :| Chain(nodes, start, p) && p[|p| - 1] == n;
    assert p[0] >= 0;
    ClosedHoldsChain(nodes, start, seen, p);
  }
}
