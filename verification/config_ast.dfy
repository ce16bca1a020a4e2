/**
 The parsed configuration source, reduced to what the domain lookup inspects: class
 definitions, annotated assignments with their right-hand sides, and every other node as a
 container of children. Expression subtrees other than those right-hand sides are dropped:
 they cannot hold a class definition, so dropping them keeps the relative order in which a
 breadth-first walk meets the class definitions.
 */
module ConfigAst {
  import opened Wrappers

  /** A literal constant: a string, or `None`. */
  datatype Const = Str(s: string) | NoneConst

  datatype Expr =
    | Constant(value: Const)
    | Call(keywords: seq<Keyword>)
    | OtherExpr

  /** A keyword argument; `arg` is absent for `**kwargs`. */
  datatype Keyword = Keyword(arg: Option<string>, value: Expr)

  datatype Target = Name(id: string) | OtherTarget

  datatype Node =
    | ClassDef(body: seq<Node>)
    | AnnAssign(target: Target, value: Option<Expr>)
    | OtherNode(children: seq<Node>)

  function Children(n: Node): seq<Node> {
    match n
    case ClassDef(b) => b
    case AnnAssign(_, _) => []
    case OtherNode(c) => c
  }

  function Size(n: Node): nat
    decreases n, 1
  {
    match n
    case ClassDef(b) => 1 + SizeSeq(b)
    case AnnAssign(_, _) => 1
    case OtherNode(c) => 1 + SizeSeq(c)
  }

  function SizeSeq(s: seq<Node>): nat
    decreases s, 0
  {
    if |s| == 0 then 0 else Size(s[0]) + SizeSeq(s[1..])
  }

  lemma SizeOfNode(n: Node)
    ensures Size(n) == 1 + SizeSeq(Children(n))
  {
  }

  lemma {:induction false} SizeSeqConcat(a: seq<Node>, b: seq<Node>)
    ensures SizeSeq(a + b) == SizeSeq(a) + SizeSeq(b)
  {
    if |a| == 0 {
      assert a + b == b;
    } else {
      assert (a + b)[1..] == a[1..] + b;
      SizeSeqConcat(a[1..], b);
    }
  }

  /** `ast.walk`: breadth first, each node followed later by its children in order. */
  function Bfs(queue: seq<Node>): seq<Node>
    decreases SizeSeq(queue)
  {
    if |queue| == 0 then []
    else
      SizeSeqConcat(queue[1..], Children(queue[0]));
      SizeOfNode(queue[0]);
      [queue[0]] + Bfs(queue[1..] + Children(queue[0]))
  }

  function Walk(tree: Node): seq<Node> {
    Bfs([tree])
  }

  /** The nodes of a tree in pre-order: the reference list of "every node of the tree". */
  function Preorder(n: Node): seq<Node>
    decreases n, 1
  {
    match n
    case ClassDef(b) => [n] + PreorderSeq(b)
    case AnnAssign(_, _) => [n]
    case OtherNode(c) => [n] + PreorderSeq(c)
  }

  function PreorderSeq(s: seq<Node>): seq<Node>
    decreases s, 0
  {
    if |s| == 0 then [] else Preorder(s[0]) + PreorderSeq(s[1..])
  }

  lemma {:induction false} PreorderSeqConcat(a: seq<Node>, b: seq<Node>)
    ensures PreorderSeq(a + b) == PreorderSeq(a) + PreorderSeq(b)
  {
    if |a| == 0 {
      assert a + b == b;
    } else {
      assert (a + b)[1..] == a[1..] + b;
      PreorderSeqConcat(a[1..], b);
    }
  }

  /** The breadth-first walk visits exactly the nodes of the tree, each as often as it occurs. */
  lemma {:induction false} BfsIsPermutation(queue: seq<Node>)
    ensures multiset(Bfs(queue)) == multiset(PreorderSeq(queue))
    decreases SizeSeq(queue)
  {
    if |queue| > 0 {
      var q0 := queue[0];
      SizeSeqConcat(queue[1..], Children(q0));
      SizeOfNode(q0);
      BfsIsPermutation(queue[1..] + Children(q0));
      PreorderSeqConcat(queue[1..], Children(q0));
      assert Preorder(q0) == [q0] + PreorderSeq(Children(q0));
      assert PreorderSeq(queue) == [q0] + PreorderSeq(Children(q0)) + PreorderSeq(queue[1..]);
    }
  }

  /** What the structured lookup reads: nothing, or the value a `return` hands back (which
      is absent when the constant is `None`). */
  datatype Lookup = NotFound | Found(value: Option<string>)

  function ConstValue(c: Const): Option<string> {
    match c
    case Str(s) => Some(s)
    case NoneConst => None
  }

  predicate DefaultAt(kws: seq<Keyword>, i: int) {
    0 <= i < |kws| && kws[i].arg == Some("default") && kws[i].value.Constant?
  }

  /** The first `default=` keyword whose value is a constant. */
  function KeywordDefault(kws: seq<Keyword>): (r: Lookup)
    ensures r.Found? <==> exists i :: DefaultAt(kws, i)
    ensures r.Found? ==> exists i :: DefaultAt(kws, i) && r.value == ConstValue(kws[i].value.value)
  {
    if |kws| == 0 then NotFound
    else if DefaultAt(kws, 0) then Found(ConstValue(kws[0].value.value))
    else
      var r := KeywordDefault(kws[1..]);
      assert forall i :: 1 <= i < |kws| ==> DefaultAt(kws, i) == DefaultAt(kws[1..], i - 1);
      assert forall i :: DefaultAt(kws, i) ==> DefaultAt(kws[1..], i - 1);
      assert forall j :: DefaultAt(kws[1..], j) ==> DefaultAt(kws, j + 1) && kws[j + 1] == kws[1..][j];
      r
  }

  /** A class body item declaring `domain: T = <constant>` or `domain: T = f(..., default=<constant>)`. */
  function ItemDomain(item: Node): (r: Lookup)
    ensures r.Found? ==> item.AnnAssign? && item.target == Name("domain") && item.value.Some?
    ensures r.Found? && item.value.value.Constant? ==> r.value == ConstValue(item.value.value.value)
    ensures r.Found? && !item.value.value.Constant? ==> item.value.value.Call? && KeywordDefault(item.value.value.keywords) == r
  {
    match item
    case AnnAssign(Name(id), Some(Constant(c))) => if id == "domain" then Found(ConstValue(c)) else NotFound
    case AnnAssign(Name(id), Some(Call(kws))) => if id == "domain" then KeywordDefault(kws) else NotFound
    case _ => NotFound
  }

  /** The first item of a class body that declares the domain. */
  function BodyDomain(body: seq<Node>): (r: Lookup)
    ensures r.NotFound? <==> forall i :: 0 <= i < |body| ==> ItemDomain(body[i]).NotFound?
    ensures r.Found? ==> exists i :: 0 <= i < |body| && ItemDomain(body[i]) == r
  {
    if |body| == 0 then NotFound
    else if ItemDomain(body[0]).Found? then ItemDomain(body[0])
    else
      assert forall i :: 1 <= i < |body| ==> body[i] == body[1..][i - 1];
      BodyDomain(body[1..])
  }

  /** The node is a class whose own body declares the domain. */
  predicate DeclaresDomain(n: Node) {
    n.ClassDef? && BodyDomain(n.body).Found?
  }

  /** The first declaring class, in the order given. */
  function ClassesDomain(nodes: seq<Node>): (r: Lookup)
    ensures r.NotFound? <==> forall i :: 0 <= i < |nodes| ==> !DeclaresDomain(nodes[i])
    ensures r.Found? ==> exists i :: 0 <= i < |nodes| && DeclaresDomain(nodes[i]) && BodyDomain(nodes[i].body) == r
  {
    if |nodes| == 0 then NotFound
    else if DeclaresDomain(nodes[0]) then BodyDomain(nodes[0].body)
    else
      assert forall i :: 1 <= i < |nodes| ==> nodes[i] == nodes[1..][i - 1];
      ClassesDomain(nodes[1..])
  }

  /** The structured lookup: classes in breadth-first order, items in body order. It finds
      nothing exactly when no class anywhere in the tree declares the domain, and what it
      finds is declared by some class of the tree. */
  function StructuredDomain(tree: Node): (r: Lookup)
    ensures r.NotFound? <==> forall n :: n in Preorder(tree) ==> !DeclaresDomain(n)
    ensures r.Found? ==> exists n :: n in Preorder(tree) && DeclaresDomain(n) && BodyDomain(n.body) == r
  {
    WalkVisitsTree(tree);
    ClassesDomain(Walk(tree))
  }

  /** `ast.walk` meets every node of the tree and nothing else. */
  lemma WalkVisitsTree(tree: Node)
    ensures forall n :: n in Walk(tree) <==> n in Preorder(tree)
  {
    var w := Walk(tree);
    BfsIsPermutation([tree]);
    assert PreorderSeq([tree]) == Preorder(tree);
    forall n ensures n in w <==> n in Preorder(tree) {
      assert n in w <==> n in multiset(w);
      assert n in Preorder(tree) <==> n in multiset(Preorder(tree));
    }
  }
}
