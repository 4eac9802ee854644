/** The part of Python's abstract syntax tree that the analysers inspect, the
    child order of `ast.iter_child_nodes`, and `ast.walk`, which visits a tree
    breadth first: it pops the oldest node of a queue, appends that node's
    children and yields it. Operator and expression-context leaves (`And`,
    `Load`, ...) are left out: they have no children and no analysis looks at
    them. */
module Ast {
  import opened Common

  /** The value of an `ast.Constant`: a string, or anything else. */
  datatype Const = StrConst(str: string) | OtherConst

  datatype Node =
    | Module(body: seq<Node>)
    | FunctionDef(isAsync: bool, name: string, args: Node, body: seq<Node>,
                  decorators: seq<Node>, returnAnnotation: Option<Node>)
    | ClassDef(name: string, bases: seq<Node>, keywords: seq<Node>, body: seq<Node>,
               decorators: seq<Node>)
    | Arguments(posonlyargs: seq<Node>, positional: seq<Node>, vararg: Option<Node>,
                kwonlyargs: seq<Node>, kwDefaults: seq<Node>, kwarg: Option<Node>,
                defaults: seq<Node>)
    | Arg(arg: string, annotation: Option<Node>)
    | If(test: Node, body: seq<Node>, orelse: seq<Node>)
    | While(test: Node, body: seq<Node>, orelse: seq<Node>)
    | For(isAsync: bool, target: Node, iter: Node, body: seq<Node>, orelse: seq<Node>)
    | Try(body: seq<Node>, handlers: seq<Node>, orelse: seq<Node>, finalbody: seq<Node>)
    | ExceptHandler(typ: Option<Node>, boundName: Option<string>, body: seq<Node>)
    | With(isAsync: bool, items: seq<Node>, body: seq<Node>)
    | WithItem(contextExpr: Node, optionalVars: Option<Node>)
    | BoolOp(values: seq<Node>)
      /** `ListComp`, `SetComp` and `GeneratorExp` (`elts == [elt]`) and
          `DictComp` (`elts == [key, value]`). */
    | Comp(elts: seq<Node>, generators: seq<Node>)
    | Comprehension(target: Node, iter: Node, ifs: seq<Node>)
    | Assign(targets: seq<Node>, value: Node)
    | AugAssign(target: Node, value: Node)
    | AnnAssign(target: Node, annType: Node, annValue: Option<Node>)
    | NamedExpr(target: Node, value: Node)
    | Import(names: seq<Node>)
    | ImportFrom(moduleName: Option<string>, names: seq<Node>, level: nat)
    | Alias(aliasName: string, asname: Option<string>)
    | Global(identifiers: seq<string>)
    | Nonlocal(identifiers: seq<string>)
    | Expr(value: Node)
    | Constant(constant: Const)
    | Name(id: string)
      /** `ast.Tuple` and `ast.List`. */
    | TupleOrList(elts: seq<Node>)
    | Attribute(value: Node, attr: string)
      /** Any other node, with its children in field order. */
    | Other(children: seq<Node>)

  function Opt(o: Option<Node>): (r: seq<Node>)
    ensures |r| <= 1 && forall c :: c in r ==> o == Some(c)
  {
    if o.Some? then [o.value] else []
  }

  /** `ast.iter_child_nodes`: the child nodes, field by field. */
  function Children(n: Node): (cs: seq<Node>)
    ensures forall i :: 0 <= i < |cs| ==> cs[i] < n
  {
    match n
    case Module(body) => body
    case FunctionDef(_, _, args, body, decorators, ret) => [args] + body + decorators + Opt(ret)
    case ClassDef(_, bases, keywords, body, decorators) => bases + keywords + body + decorators
    case Arguments(po, pos, va, kwo, kwd, kwa, defs) => po + pos + Opt(va) + kwo + kwd + Opt(kwa) + defs
    case Arg(_, annotation) => Opt(annotation)
    case If(test, body, orelse) => [test] + body + orelse
    case While(test, body, orelse) => [test] + body + orelse
    case For(_, target, iter, body, orelse) => [target, iter] + body + orelse
    case Try(body, handlers, orelse, finalbody) => body + handlers + orelse + finalbody
    case ExceptHandler(typ, _, body) => Opt(typ) + body
    case With(_, items, body) => items + body
    case WithItem(ctx, vars) => [ctx] + Opt(vars)
    case BoolOp(values) => values
    case Comp(elts, generators) => elts + generators
    case Comprehension(target, iter, ifs) => [target, iter] + ifs
    case Assign(targets, value) => targets + [value]
    case AugAssign(target, value) => [target, value]
    case AnnAssign(target, annotation, value) => [target, annotation] + Opt(value)
    case NamedExpr(target, value) => [target, value]
    case Import(names) => names
    case ImportFrom(_, names, _) => names
    case Alias(_, _) => []
    case Global(_) => []
    case Nonlocal(_) => []
    case Expr(value) => [value]
    case Constant(_) => []
    case Name(_) => []
    case TupleOrList(elts) => elts
    case Attribute(value, _) => [value]
    case Other(children) => children
  }

  // ---------------------------------------------------------------------
  // Depth-first reference order

  /** The nodes of the tree rooted at `n`, parent before children, depth first. */
  function Preorder(n: Node): seq<Node>
    decreases n, 1
  {
    [n] + PreorderOf(n, Children(n))
  }

  function PreorderOf(parent: Node, cs: seq<Node>): seq<Node>
    requires forall i :: 0 <= i < |cs| ==> cs[i] < parent
    decreases parent, 0, |cs|
  {
    if cs == [] then [] else Preorder(cs[0]) + PreorderOf(parent, cs[1..])
  }

  /** The nodes of the trees of a forest, tree after tree. */
  function PreorderForest(q: seq<Node>): seq<Node>
  {
    if q == [] then [] else Preorder(q[0]) + PreorderForest(q[1..])
  }

  /** The number of nodes of a tree. */
  function Size(n: Node): nat
  {
    |Preorder(n)|
  }

  lemma {:induction false} PreorderOfIsForest(parent: Node, cs: seq<Node>)
    requires forall i :: 0 <= i < |cs| ==> cs[i] < parent
    ensures PreorderOf(parent, cs) == PreorderForest(cs)
    decreases |cs|
  {
    if cs != [] {
      PreorderOfIsForest(parent, cs[1..]);
    }
  }

  lemma {:induction false} PreorderForestAppend(a: seq<Node>, b: seq<Node>)
    ensures PreorderForest(a + b) == PreorderForest(a) + PreorderForest(b)
  {
    if a == [] {
      assert a + b == b;
    } else {
      assert (a + b)[0] == a[0];
      assert (a + b)[1..] == a[1..] + b;
      PreorderForestAppend(a[1..], b);
    }
  }

  /** Taking the first tree of a forest apart: its root, then its children's
      trees, then the rest of the forest. */
  lemma Unfold(q: seq<Node>)
    requires q != []
    ensures PreorderForest(q[1..] + Children(q[0])) == PreorderForest(q[1..]) + PreorderForest(Children(q[0]))
    ensures PreorderForest(q) == [q[0]] + PreorderForest(Children(q[0])) + PreorderForest(q[1..])
  {
    PreorderForestAppend(q[1..], Children(q[0]));
    PreorderOfIsForest(q[0], Children(q[0]));
  }

  // ---------------------------------------------------------------------
  // ast.walk

  /** The nodes `ast.walk` yields when its queue holds `q`. */
  function WalkQueue(q: seq<Node>): seq<Node>
    decreases |PreorderForest(q)|
  {
    if q == [] then []
    else
      Unfold(q);
      [q[0]] + WalkQueue(q[1..] + Children(q[0]))
  }

  /** `ast.walk(n)`. */
  function Walk(n: Node): seq<Node>
  {
    WalkQueue([n])
  }

  /** The breadth-first walk visits exactly the nodes of the depth-first
      order, each as often. */
  lemma {:induction false} WalkQueuePermutesPreorder(q: seq<Node>)
    ensures multiset(WalkQueue(q)) == multiset(PreorderForest(q))
    decreases |PreorderForest(q)|
  {
    if q != [] {
      Unfold(q);
      var rest := q[1..] + Children(q[0]);
      WalkQueuePermutesPreorder(rest);
      calc {
        multiset(WalkQueue(q));
        multiset([q[0]]) + multiset(WalkQueue(rest));
        multiset([q[0]]) + multiset(PreorderForest(q[1..])) + multiset(PreorderForest(Children(q[0])));
        multiset(PreorderForest(q));
      }
    }
  }

  lemma SingletonForest(n: Node)
    ensures PreorderForest([n]) == Preorder(n)
  {
    assert [n][1..] == [];
  }

  /** `ast.walk(n)` starts at `n` and visits every node of the tree once. */
  lemma WalkPermutesPreorder(n: Node)
    ensures multiset(Walk(n)) == multiset(Preorder(n))
    ensures |Walk(n)| == Size(n)
    ensures Walk(n)[0] == n
  {
    WalkQueuePermutesPreorder([n]);
    SingletonForest(n);
    assert |multiset(Walk(n))| == |multiset(Preorder(n))|;
  }

  /** Every node of the tree rooted at `n` is `n` or a proper part of it. */
  lemma {:induction false} PreorderBelow(n: Node)
    ensures forall x :: x in Preorder(n) ==> x == n || x < n
    decreases n, 1
  {
    PreorderOfBelow(n, Children(n));
  }

  lemma {:induction false} PreorderOfBelow(parent: Node, cs: seq<Node>)
    requires forall i :: 0 <= i < |cs| ==> cs[i] < parent
    ensures forall x :: x in PreorderOf(parent, cs) ==> x < parent
    decreases parent, 0, |cs|
  {
    if cs != [] {
      PreorderBelow(cs[0]);
      PreorderOfBelow(parent, cs[1..]);
    }
  }

  /** The tree of any node in a tree is part of that tree's depth-first order:
      its nodes occur there at least as often. */
  lemma {:induction false} SubtreeIncluded(n: Node, x: Node)
    requires x in Preorder(n)
    ensures multiset(Preorder(x)) <= multiset(Preorder(n))
    decreases n, 1
  {
    if x != n {
      SubtreeOfIncluded(n, Children(n), x);
    }
  }

  lemma {:induction false} SubtreeOfIncluded(parent: Node, cs: seq<Node>, x: Node)
    requires forall i :: 0 <= i < |cs| ==> cs[i] < parent
    requires x in PreorderOf(parent, cs)
    ensures multiset(Preorder(x)) <= multiset(PreorderOf(parent, cs))
    decreases parent, 0, |cs|
  {
    if x in Preorder(cs[0]) {
      SubtreeIncluded(cs[0], x);
    } else {
      SubtreeOfIncluded(parent, cs[1..], x);
    }
  }

  // ---------------------------------------------------------------------
  // Sums over visited nodes

  function SumOver(f: Node -> int, xs: seq<Node>): int
  {
    if xs == [] then 0 else f(xs[0]) + SumOver(f, xs[1..])
  }

  lemma {:induction false} SumOverAppend(f: Node -> int, a: seq<Node>, b: seq<Node>)
    ensures SumOver(f, a + b) == SumOver(f, a) + SumOver(f, b)
  {
    if a == [] {
      assert a + b == b;
    } else {
      assert (a + b)[0] == a[0];
      assert (a + b)[1..] == a[1..] + b;
      SumOverAppend(f, a[1..], b);
    }
  }

  /** Removing one occurrence of `xs[k]`: the sum drops by its value. */
  lemma SumOverRemove(f: Node -> int, xs: seq<Node>, k: nat)
    requires k < |xs|
    ensures SumOver(f, xs) == f(xs[k]) + SumOver(f, xs[..k] + xs[k + 1..])
  {
    var a, b := xs[..k], xs[k + 1..];
    assert xs == a + ([xs[k]] + b);
    SumOverAppend(f, a, [xs[k]] + b);
    SumOverAppend(f, a, b);
    assert ([xs[k]] + b)[1..] == b;
  }

  /** A sum over visited nodes of non-negative values grows with the nodes
      visited, and does not depend on their order. */
  lemma {:induction false} SumOverSubMultiset(f: Node -> int, xs: seq<Node>, ys: seq<Node>)
    requires forall x :: f(x) >= 0
    requires multiset(xs) <= multiset(ys)
    ensures SumOver(f, xs) <= SumOver(f, ys)
    ensures multiset(xs) == multiset(ys) ==> SumOver(f, xs) == SumOver(f, ys)
    decreases |ys|
  {
    if xs == [] {
      SumOverNonNegative(f, ys);
      if multiset(xs) == multiset(ys) {
        assert |ys| == |multiset(ys)| == 0;
      }
    } else {
      var k := MatchFirst(xs, ys);
      SumOverSubMultiset(f, xs[1..], ys[..k] + ys[k + 1..]);
      SumOverRemove(f, ys, k);
    }
  }

  lemma {:induction false} SumOverNonNegative(f: Node -> int, xs: seq<Node>)
    requires forall x :: f(x) >= 0
    ensures SumOver(f, xs) >= 0
  {
    if xs != [] {
      SumOverNonNegative(f, xs[1..]);
    }
  }

  /** A sum over `ast.walk(n)` equals the same sum over the depth-first order. */
  lemma WalkSum(f: Node -> int, n: Node)
    requires forall x :: f(x) >= 0
    ensures SumOver(f, Walk(n)) == SumOver(f, Preorder(n))
  {
    WalkPermutesPreorder(n);
    SumOverSubMultiset(f, Walk(n), Preorder(n));
  }

  /** The sum over the walk of a node found in a tree is at most the sum over
      the walk of the whole tree. */
  lemma WalkSumOfPart(f: Node -> int, n: Node, x: Node)
    requires forall y :: f(y) >= 0
    requires x in Walk(n)
    ensures SumOver(f, Walk(x)) <= SumOver(f, Walk(n))
  {
    WalkPermutesPreorder(n);
    assert x in multiset(Walk(n));
    SubtreeIncluded(n, x);
    WalkSum(f, n);
    WalkSum(f, x);
    SumOverSubMultiset(f, Preorder(x), Preorder(n));
  }

  lemma SumOverSnoc(f: Node -> int, xs: seq<Node>, k: nat)
    requires k < |xs|
    ensures SumOver(f, xs[..k + 1]) == SumOver(f, xs[..k]) + f(xs[k])
  {
    assert xs[..k + 1] == xs[..k] + [xs[k]];
    SumOverAppend(f, xs[..k], [xs[k]]);
    assert SumOver(f, [xs[k]]) == f(xs[k]) + SumOver(f, []);
  }

  // ---------------------------------------------------------------------
  // Unions over visited nodes

  function UnionOver(f: Node -> set<string>, xs: seq<Node>): set<string>
  {
    if xs == [] then {} else f(xs[0]) + UnionOver(f, xs[1..])
  }

  /** A string is gathered exactly when some visited node contributes it. */
  lemma {:induction false} UnionOverMember(f: Node -> set<string>, xs: seq<Node>, s: string)
    ensures s in UnionOver(f, xs) <==> exists i :: 0 <= i < |xs| && s in f(xs[i])
  {
    if xs != [] {
      UnionOverMember(f, xs[1..], s);
      if s in UnionOver(f, xs[1..]) {
        var i :| 0 <= i < |xs[1..]| && s in f(xs[1..][i]);
        assert s in f(xs[i + 1]);
      }
      if exists i :: 0 <= i < |xs| && s in f(xs[i]) {
        var i :| 0 <= i < |xs| && s in f(xs[i]);
        if i > 0 {
          assert s in f(xs[1..][i - 1]);
        }
      }
    }
  }

  lemma UnionOverSnoc(f: Node -> set<string>, xs: seq<Node>, k: nat)
    requires k < |xs|
    ensures UnionOver(f, xs[..k + 1]) == UnionOver(f, xs[..k]) + f(xs[k])
  {
    forall s | true
      ensures s in UnionOver(f, xs[..k + 1]) <==> s in UnionOver(f, xs[..k]) + f(xs[k])
    {
      UnionOverMember(f, xs[..k + 1], s);
      UnionOverMember(f, xs[..k], s);
      if s in UnionOver(f, xs[..k + 1]) {
        var i :| 0 <= i < k + 1 && s in f(xs[..k + 1][i]);
        if i < k {
          assert xs[..k][i] == xs[i];
        }
      }
      if s in UnionOver(f, xs[..k]) {
        var i :| 0 <= i < k && s in f(xs[..k][i]);
        assert xs[..k + 1][i] == xs[i];
      }
      if s in f(xs[k]) {
        assert xs[..k + 1][k] == xs[k];
      }
    }
  }

  /** A union over `ast.walk(n)` equals the same union over the depth-first
      order. */
  lemma WalkUnion(f: Node -> set<string>, n: Node)
    ensures UnionOver(f, Walk(n)) == UnionOver(f, Preorder(n))
  {
    WalkPermutesPreorder(n);
    var w, p := Walk(n), Preorder(n);
    forall s | true
      ensures s in UnionOver(f, w) <==> s in UnionOver(f, p)
    {
      UnionOverMember(f, w, s);
      UnionOverMember(f, p, s);
      if s in UnionOver(f, w) {
        var i :| 0 <= i < |w| && s in f(w[i]);
        assert w[i] in multiset(p);
        var j :| 0 <= j < |p| && p[j] == w[i];
      }
      if s in UnionOver(f, p) {
        var i :| 0 <= i < |p| && s in f(p[i]);
        assert p[i] in multiset(w);
        var j :| 0 <= j < |w| && w[j] == p[i];
      }
    }
  }
}
