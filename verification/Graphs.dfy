/** Tensor graphs as ordered node lists: well-formedness and what running one computes. */
module Graphs {

  /** The ops the surgery adds, and any other op by its kind (type and attributes). */
  datatype Op = Slice | Solve | Concat | Other(kind: string)

  /** The empty name stands for an omitted input or output. */
  datatype Node = Node(op: Op, inputs: seq<string>, outputs: seq<string>)

  /** A tensor as its heads (dimension 1), a constant of integers, or no value. */
  datatype Value<H> = Heads(h: seq<H>) | Ints(xs: seq<int>) | Absent

  /** The per-head solve, and the meaning of every other op. */
  datatype Sem<!H> = Sem(solve: H -> H, other: (string, seq<Value<H>>) -> seq<Value<H>>)

  type Env<H> = map<string, Value<H>>

  function Get<H>(env: Env<H>, x: string): Value<H> {
    if x != "" && x in env then env[x] else Absent
  }

  function Gets<H>(env: Env<H>, xs: seq<string>): (vs: seq<Value<H>>)
    ensures |vs| == |xs| && forall i :: 0 <= i < |xs| ==> vs[i] == Get(env, xs[i])
  {
    seq(|xs|, i requires 0 <= i < |xs| => Get(env, xs[i]))
  }

  function Arg<H>(args: seq<Value<H>>, i: nat): Value<H> {
    if i < |args| then args[i] else Absent
  }

  function MapHeads<H>(f: H -> H, h: seq<H>): (r: seq<H>)
    ensures |r| == |h| && forall i :: 0 <= i < |h| ==> r[i] == f(h[i])
  {
    seq(|h|, i requires 0 <= i < |h| => f(h[i]))
  }

  function SolveValue<H>(f: H -> H, v: Value<H>): Value<H> {
    if v.Heads? then Heads(MapHeads(f, v.h)) else Absent
  }

  function AtMost(n: int, m: nat): (r: nat)
    ensures r <= m
  {
    if n < 0 then 0 else if n > m then m else n
  }

  /** Heads lo .. hi, with the end clamped to the tensor. */
  function SliceHeads<H>(h: seq<H>, lo: nat, hi: nat): seq<H>
    requires lo <= hi
  {
    h[AtMost(lo, |h|)..AtMost(hi, |h|)]
  }

  /** Slice with starts, ends and axes as one-element constants on the head axis. */
  function SliceValue<H>(args: seq<Value<H>>): Value<H> {
    var v, st, en, ax := Arg(args, 0), Arg(args, 1), Arg(args, 2), Arg(args, 3);
    if v.Heads? && st.Ints? && en.Ints? && ax == Ints([1]) && |st.xs| == |en.xs| == 1 && 0 <= st.xs[0] <= en.xs[0]
    then Heads(SliceHeads(v.h, st.xs[0], en.xs[0])) else Absent
  }

  /** Concatenation along the head axis. */
  function ConcatValue<H>(args: seq<Value<H>>): Value<H> {
    if |args| == 0 then Heads([])
    else
      var rest := ConcatValue(args[..|args| - 1]);
      var last := args[|args| - 1];
      if rest.Heads? && last.Heads? then Heads(rest.h + last.h) else Absent
  }

  function Apply<H>(sem: Sem<H>, op: Op, args: seq<Value<H>>): seq<Value<H>> {
    match op
    case Slice => [SliceValue(args)]
    case Solve => [SolveValue(sem.solve, Arg(args, 0))]
    case Concat => [ConcatValue(args)]
    case Other(kind) => sem.other(kind, args)
  }

  /** env with the outputs bound to the results, in order; omitted outputs are skipped. */
  function Bind<H>(env: Env<H>, outs: seq<string>, vals: seq<Value<H>>, k: nat): Env<H>
    requires k <= |outs|
    decreases |outs| - k
  {
    if k == |outs| then env
    else if outs[k] == "" then Bind(env, outs, vals, k + 1)
    else Bind(env[outs[k] := Arg(vals, k)], outs, vals, k + 1)
  }

  function Step<H>(sem: Sem<H>, n: Node, env: Env<H>): Env<H> {
    Bind(env, n.outputs, Apply(sem, n.op, Gets(env, n.inputs)), 0)
  }

  function Run<H>(sem: Sem<H>, nodes: seq<Node>, env: Env<H>): Env<H> {
    if nodes == [] then env else Run(sem, nodes[1..], Step(sem, nodes[0], env))
  }

  function Names(xs: seq<string>): set<string> {
    set x | x in xs && x != ""
  }

  /** All names a node list produces. */
  function Outs(nodes: seq<Node>): set<string> {
    if nodes == [] then {} else Names(nodes[0].outputs) + Outs(nodes[1..])
  }

  ghost predicate Distinct(xs: seq<string>) {
    forall i, j :: 0 <= i < j < |xs| && xs[i] == xs[j] ==> xs[i] == ""
  }

  /**
   Single assignment and topological order: every node reads only what is available before it
   and produces only new names.
   */
  ghost predicate WellFormed(nodes: seq<Node>, avail: set<string>) {
    nodes == [] ||
    (Names(nodes[0].inputs) <= avail && Names(nodes[0].outputs) !! avail && Distinct(nodes[0].outputs)
     && WellFormed(nodes[1..], avail + Names(nodes[0].outputs)))
  }

  lemma {:induction false} OutsConcat(a: seq<Node>, b: seq<Node>)
    ensures Outs(a + b) == Outs(a) + Outs(b)
  {
    if a == [] {
      assert a + b == b;
    } else {
      assert (a + b)[1..] == a[1..] + b;
      OutsConcat(a[1..], b);
    }
  }

  lemma {:induction false} OutsMember(nodes: seq<Node>, x: string)
    ensures x in Outs(nodes) <==> x != "" && exists k :: 0 <= k < |nodes| && x in nodes[k].outputs
  {
    if nodes != [] {
      OutsMember(nodes[1..], x);
      if k :| 0 <= k < |nodes| && x in nodes[k].outputs {
        if k > 0 { assert nodes[1..][k - 1] == nodes[k]; }
      }
      if k :| 0 <= k < |nodes[1..]| && x in nodes[1..][k].outputs { assert nodes[k + 1] == nodes[1..][k]; }
    }
  }

  lemma {:induction false} WellFormedConcat(a: seq<Node>, b: seq<Node>, avail: set<string>)
    ensures WellFormed(a + b, avail) <==> WellFormed(a, avail) && WellFormed(b, avail + Outs(a))
  {
    if a == [] {
      assert a + b == b && avail + Outs(a) == avail;
    } else {
      assert (a + b)[1..] == a[1..] + b && (a + b)[0] == a[0];
      WellFormedConcat(a[1..], b, avail + Names(a[0].outputs));
      assert avail + Names(a[0].outputs) + Outs(a[1..]) == avail + Outs(a);
    }
  }

  /** Node n's equation holds of the values in V. */
  ghost predicate Holds<H>(sem: Sem<H>, n: Node, V: Env<H>) {
    forall i :: 0 <= i < |n.outputs| && n.outputs[i] != "" ==>
      Get(V, n.outputs[i]) == Arg(Apply(sem, n.op, Gets(V, n.inputs)), i)
  }

  lemma {:induction false} BindLooks<H>(env: Env<H>, outs: seq<string>, vals: seq<Value<H>>, k: nat)
    requires k <= |outs| && Distinct(outs)
    ensures forall x :: x !in outs[k..] ==> Get(Bind(env, outs, vals, k), x) == Get(env, x)
    ensures forall i :: k <= i < |outs| && outs[i] != "" ==> Get(Bind(env, outs, vals, k), outs[i]) == Arg(vals, i)
    decreases |outs| - k
  {
    if k < |outs| {
      var e := if outs[k] == "" then env else env[outs[k] := Arg(vals, k)];
      BindLooks(e, outs, vals, k + 1);
      assert outs[k..] == [outs[k]] + outs[k + 1..];
    }
  }

  lemma StepLooks<H>(sem: Sem<H>, n: Node, env: Env<H>)
    requires Distinct(n.outputs)
    ensures forall x :: x !in Names(n.outputs) ==> Get(Step(sem, n, env), x) == Get(env, x)
    ensures forall i :: 0 <= i < |n.outputs| && n.outputs[i] != "" ==>
              Get(Step(sem, n, env), n.outputs[i]) == Arg(Apply(sem, n.op, Gets(env, n.inputs)), i)
  {
    BindLooks(env, n.outputs, Apply(sem, n.op, Gets(env, n.inputs)), 0);
  }

  lemma SameArgs<H>(E: Env<H>, V: Env<H>, xs: seq<string>)
    requires forall x :: x in Names(xs) ==> Get(E, x) == Get(V, x)
    ensures Gets(E, xs) == Gets(V, xs)
  {
    forall i | 0 <= i < |xs|
      ensures Get(E, xs[i]) == Get(V, xs[i])
    {
      if xs[i] != "" { assert xs[i] in Names(xs); }
    }
  }

  /** Running a well-formed list satisfies every node's equation and overwrites nothing. */
  lemma {:induction false} RunSatisfies<H>(sem: Sem<H>, nodes: seq<Node>, env: Env<H>, avail: set<string>)
    requires WellFormed(nodes, avail)
    ensures forall x :: x in avail ==> Get(Run(sem, nodes, env), x) == Get(env, x)
    ensures forall x :: x !in Outs(nodes) ==> Get(Run(sem, nodes, env), x) == Get(env, x)
    ensures forall k :: 0 <= k < |nodes| ==> Holds(sem, nodes[k], Run(sem, nodes, env))
  {
    if nodes != [] {
      var n, rest := nodes[0], nodes[1..];
      var env' := Step(sem, n, env);
      StepLooks(sem, n, env);
      RunSatisfies(sem, rest, env', avail + Names(n.outputs));
      var V := Run(sem, nodes, env);
      SameArgs(env, V, n.inputs);
      forall i | 0 <= i < |n.outputs| && n.outputs[i] != ""
        ensures Get(V, n.outputs[i]) == Arg(Apply(sem, n.op, Gets(V, n.inputs)), i)
      {
        assert n.outputs[i] in Names(n.outputs);
      }
      forall k | 0 <= k < |nodes|
        ensures Holds(sem, nodes[k], V)
      {
        if k > 0 { assert nodes[k] == rest[k - 1]; }
      }
    }
  }

  /** Any values that satisfy every equation and agree on what is available are what the run computes. */
  lemma {:induction false} RunUnique<H>(sem: Sem<H>, nodes: seq<Node>, env: Env<H>, avail: set<string>, V: Env<H>)
    requires WellFormed(nodes, avail)
    requires forall x :: x in avail ==> Get(env, x) == Get(V, x)
    requires forall k :: 0 <= k < |nodes| ==> Holds(sem, nodes[k], V)
    ensures forall x :: x in avail + Outs(nodes) ==> Get(Run(sem, nodes, env), x) == Get(V, x)
  {
    if nodes != [] {
      var n, rest := nodes[0], nodes[1..];
      StepLooks(sem, n, env);
      SameArgs(env, V, n.inputs);
      assert Holds(sem, n, V);
      var env' := Step(sem, n, env);
      forall x | x in avail + Names(n.outputs)
        ensures Get(env', x) == Get(V, x)
      {
        if x in Names(n.outputs) {
          var i :| 0 <= i < |n.outputs| && n.outputs[i] == x;
        }
      }
      forall k | 0 <= k < |rest|
        ensures Holds(sem, rest[k], V)
      {
        assert rest[k] == nodes[k + 1];
      }
      RunUnique(sem, rest, env', avail + Names(n.outputs), V);
    }
  }
}
