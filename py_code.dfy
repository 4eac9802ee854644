/** The analyser of one piece of Python source: syntax validity, characters,
    logical lines, imports, McCabe complexity, user-defined names, comments and
    docstrings. Parsing (`ast.parse`), radon's raw line count and the
    tokenizer are outside the model: they are supplied as a `Library`. */
module PyCode {
  import opened Common
  import opened Strings
  import opened Ast
  import Statistics
  import TextStats
  import NameStats

  /** What the analyser borrows from other code, as total functions of the
      source text. */
  datatype Library = Library(
    /** `ast.parse`, `None` when it raises. `ast.parse` always returns an
        `ast.Module`; the parameter's type does not say so, and for another
        root `DocstringsOf` would read that root's own first statement. */
    parse: string -> Option<Node>,
    /** `radon.raw.analyze(content).lloc`, `None` when it raises. */
    rawLloc: string -> Option<int>,
    /** The strings of the `COMMENT` tokens `tokenize.generate_tokens` yields, in order. */
    commentTokens: string -> seq<string>)

  /** What reading a file as UTF-8 text gives: its text; an `OSError` such
      as `IsADirectoryError` or `PermissionError`; or bytes that are not
      UTF-8, for which Python raises `UnicodeDecodeError`, a `ValueError`. */
  datatype ReadOutcome = Text(text: string) | Unreadable | NotUtf8

  /** The exception a failed read raises. */
  function ReadError(o: ReadOutcome): (e: Error)
    requires !o.Text?
    ensures e == OSError <==> o.Unreadable?
    ensures e == ValueError <==> o.NotUtf8?
  {
    if o.Unreadable? then OSError else ValueError
  }

  /** A file system path as the constructors see it: whether it exists, its
      `suffix`, and what reading it gives. */
  datatype Path = Path(present: bool, suffix: string, read: ReadOutcome)

  /** What the constructor may be given. */
  datatype Source = PathSource(path: Path) | TextSource(text: string) | OtherSource

  datatype Py = Py(content: string)

  /** `Py(source)`: a path must name an existing `.py` file, whose text is read;
      a string is the code itself; anything else is refused. */
  function NewPy(src: Source): (r: Result<Py>)
    ensures src.TextSource? ==> r == Ok(Py(src.text))
    ensures src.OtherSource? ==> r == Err(TypeError)
    ensures src.PathSource? ==> (r == Err(FileNotFoundError) <==> !src.path.present)
    ensures src.PathSource? && src.path.present ==>
      (r.Ok? <==> src.path.suffix == ".py" && src.path.read.Text?)
    ensures src.PathSource? && src.path.present && src.path.suffix == ".py" && !src.path.read.Text? ==>
      r == Err(ReadError(src.path.read))
    ensures src.PathSource? && r.Ok? ==> r.value.content == src.path.read.text
    ensures r.Err? ==> r.error in {FileNotFoundError, ValueError, TypeError, OSError}
  {
    match src
    case PathSource(p) =>
      if !p.present then Err(FileNotFoundError)
      else if p.suffix != ".py" then Err(ValueError)
      else if !p.read.Text? then Err(ReadError(p.read))
      else Ok(Py(p.read.text))
    case TextSource(t) => Ok(Py(t))
    case OtherSource => Err(TypeError)
  }

  /** `n_char`: every character counts, whitespace and newlines included. */
  function NChar(py: Py): (n: nat)
    ensures n == |py.content|
  {
    |py.content|
  }

  /** `_ast_tree`. */
  function Tree(lib: Library, py: Py): Option<Node>
  {
    lib.parse(py.content)
  }

  /** `is_valid_syntax`: parsing succeeded. */
  predicate IsValidSyntax(lib: Library, py: Py)
  {
    Tree(lib, py).Some?
  }

  // ---------------------------------------------------------------------
  // Imports

  function ImportIndicator(n: Node): int
  {
    if n.Import? || n.ImportFrom? then 1 else 0
  }

  /** `n_imports`: the number of `import` and `from ... import` statements
      anywhere in the tree, `None` when the code does not parse. */
  function NImports(lib: Library, py: Py): (r: Option<int>)
    ensures r.Some? <==> IsValidSyntax(lib, py)
    ensures r.Some? ==> r.value == SumOver(ImportIndicator, Preorder(Tree(lib, py).value))
    ensures r.Some? ==> 0 <= r.value <= Size(Tree(lib, py).value)
  {
    match Tree(lib, py)
    case None => None
    case Some(tree) =>
      WalkSum(ImportIndicator, tree);
      WalkPermutesPreorder(tree);
      SumOverAtMostLength(ImportIndicator, Walk(tree));
      SumOverNonNegative(ImportIndicator, Walk(tree));
      Some(SumOver(ImportIndicator, Walk(tree)))
  }

  lemma {:induction false} SumOverAtMostLength(f: Node -> int, xs: seq<Node>)
    requires forall x :: f(x) <= 1
    ensures SumOver(f, xs) <= |xs|
  {
    if xs != [] {
      SumOverAtMostLength(f, xs[1..]);
    }
  }

  /** `s.split(".")[0]`: the part before the first dot. */
  function TopLevel(s: string): (r: string)
    ensures |r| <= |s| && r == s[..|r|]
    ensures forall i :: 0 <= i < |r| ==> r[i] != '.'
    ensures |r| < |s| ==> s[|r|] == '.'
  {
    if s == [] || s[0] == '.' then [] else [s[0]] + TopLevel(s[1..])
  }

  function AliasModules(names: seq<Node>): set<string>
  {
    set a | a in names && a.Alias? :: TopLevel(a.aliasName)
  }

  /** The top-level modules one node imports: every alias of an `import`, and
      the module of a `from ... import` when it has a non-empty name (so
      `from . import x` gives none, but `from .pkg import x` gives `pkg`). */
  function NodeModules(n: Node): set<string>
  {
    match n
    case Import(names) => AliasModules(names)
    case ImportFrom(m, _, _) => if m.Some? && m.value != [] then {TopLevel(m.value)} else {}
    case _ => {}
  }

  /** `n_imported_modules`, visiting the nodes in `ast.walk` order. */
  method NImportedModules(lib: Library, py: Py) returns (r: Option<int>)
    ensures r.Some? <==> IsValidSyntax(lib, py)
    ensures r.Some? ==> r.value == |UnionOver(NodeModules, Preorder(Tree(lib, py).value))|
  {
    var tree := Tree(lib, py);
    if tree.None? {
      return None;
    }
    var walk := Walk(tree.value);
    var modules: set<string> := {};
    for k := 0 to |walk|
      invariant modules == UnionOver(NodeModules, walk[..k])
    {
      UnionOverSnoc(NodeModules, walk, k);
      var found := ModulesOf(walk[k]);
      modules := modules + found;
    }
    assert walk[..|walk|] == walk;
    WalkUnion(NodeModules, tree.value);
    r := Some(|modules|);
  }

  /** The loop body of `n_imported_modules` for one node. */
  method ModulesOf(node: Node) returns (found: set<string>)
    ensures found == NodeModules(node)
  {
    found := {};
    if node.Import? {
      for j := 0 to |node.names|
        invariant found == AliasModules(node.names[..j])
      {
        var alias := node.names[j];
        assert node.names[..j + 1] == node.names[..j] + [alias];
        if alias.Alias? {
          found := found + {TopLevel(alias.aliasName)};
        }
      }
      assert node.names[..|node.names|] == node.names;
    } else if node.ImportFrom? {
      if node.moduleName.Some? && node.moduleName.value != [] {
        found := {TopLevel(node.moduleName.value)};
      }
    }
  }

  /** A module is counted exactly when some import in the tree names it, and
      no counted module name contains a dot. */
  lemma ImportedModuleMember(tree: Node, m: string)
    ensures m in UnionOver(NodeModules, Preorder(tree)) <==>
      exists i :: 0 <= i < |Preorder(tree)| && m in NodeModules(Preorder(tree)[i])
    ensures m in UnionOver(NodeModules, Preorder(tree)) ==> '.' !in m
  {
    UnionOverMember(NodeModules, Preorder(tree), m);
    if m in UnionOver(NodeModules, Preorder(tree)) {
      var i :| 0 <= i < |Preorder(tree)| && m in NodeModules(Preorder(tree)[i]);
      var n := Preorder(tree)[i];
      if n.Import? {
        var a :| a in n.names && a.Alias? && m == TopLevel(a.aliasName);
      }
    }
  }

  /** `import os.path, os` names a single module. */
  lemma DottedImportsShareModule()
    ensures NodeModules(Import([Alias("os.path", None), Alias("os", None)])) == {"os"}
  {
    var n := Import([Alias("os.path", None), Alias("os", None)]);
    assert TopLevel("os.path") == "os";
    assert TopLevel("os") == "os";
    assert AliasModules(n.names) == {TopLevel("os.path"), TopLevel("os")};
  }

  // ---------------------------------------------------------------------
  // McCabe complexity

  /** The decision points one node adds: one for each branch or loop
      statement, `try`, handler, `with` and boolean operator; one for each
      condition of a comprehension. */
  function NodeComplexity(n: Node): int
  {
    if n.If? || n.While? || n.For? || n.Try? || n.ExceptHandler? || n.With? || n.BoolOp? then 1
    else if n.Comprehension? then |n.ifs|
    else 0
  }

  /** `count_complexity_nodes`: the decision points in the tree of `node`. */
  method CountComplexityNodes(node: Node) returns (complexity: int)
    ensures complexity == SumOver(NodeComplexity, Walk(node))
    ensures complexity == SumOver(NodeComplexity, Preorder(node))
    ensures complexity >= 0
  {
    var walk := Walk(node);
    complexity := 0;
    for k := 0 to |walk|
      invariant complexity == SumOver(NodeComplexity, walk[..k])
    {
      SumOverSnoc(NodeComplexity, walk, k);
      var child := walk[k];
      if child.If? || child.While? || child.For? || child.Try? || child.ExceptHandler?
        || child.With? || child.BoolOp?
      {
        complexity := complexity + 1;
      } else if child.Comprehension? {
        complexity := complexity + |child.ifs|;
      }
    }
    assert walk[..|walk|] == walk;
    WalkSum(NodeComplexity, node);
    SumOverNonNegative(NodeComplexity, walk);
  }

  /** The complexity of a tree: one plus its decision points. */
  function Complexity(n: Node): int
  {
    1 + SumOver(NodeComplexity, Walk(n))
  }

  predicate IsFunction(n: Node) { n.FunctionDef? }

  /** The function and method definitions (plain and `async`) among `xs`, in order. */
  function FunctionNodes(xs: seq<Node>): (fs: seq<Node>)
    ensures forall i :: 0 <= i < |fs| ==> IsFunction(fs[i]) && fs[i] in xs
    ensures |fs| <= |xs|
  {
    if xs == [] then []
    else (if IsFunction(xs[0]) then [xs[0]] else []) + FunctionNodes(xs[1..])
  }

  function Complexities(fs: seq<Node>): (cs: seq<int>)
    ensures |cs| == |fs|
  {
    seq(|fs|, i requires 0 <= i < |fs| => Complexity(fs[i]))
  }

  /** `mccabe`: the whole tree's complexity when `total` is set; otherwise the
      mean or median complexity of the functions, or 0 without functions;
      `None` when the code does not parse. */
  function McCabe(lib: Library, py: Py, total: bool, useMedian: bool): Option<Number>
  {
    match Tree(lib, py)
    case None => None
    case Some(tree) =>
      if total then Some(Int(Complexity(tree)))
      else
        var fs := FunctionNodes(Walk(tree));
        if fs == [] then Some(Int(0))
        else Some(TextStats.Stat(Complexities(fs), false, useMedian))
  }

  /** `mccabe`, computed function by function as the source does. */
  method Mccabe(lib: Library, py: Py, total: bool, useMedian: bool) returns (r: Option<Number>)
    ensures r == McCabe(lib, py, total, useMedian)
  {
    var tree := Tree(lib, py);
    if tree.None? {
      return None;
    }
    if total {
      var c := CountComplexityNodes(tree.value);
      return Some(Int(1 + c));
    }
    var functionNodes := FunctionNodes(Walk(tree.value));
    if functionNodes == [] {
      return Some(Int(0));
    }
    var complexities := FunctionComplexities(functionNodes);
    if useMedian {
      r := Some(Real(Statistics.Median(complexities)));
    } else {
      r := Some(Real(Statistics.Mean(complexities)));
    }
  }

  /** The loop over the functions: one plus its decision points for each. */
  method FunctionComplexities(functionNodes: seq<Node>) returns (complexities: seq<int>)
    ensures complexities == Complexities(functionNodes)
  {
    complexities := [];
    for k := 0 to |functionNodes|
      invariant |complexities| == k
      invariant forall i :: 0 <= i < k ==> complexities[i] == Complexity(functionNodes[i])
    {
      var c := CountComplexityNodes(functionNodes[k]);
      complexities := complexities + [1 + c];
    }
  }

  /** Every function's complexity is at least 1 and at most the whole tree's. */
  lemma FunctionComplexityBounds(tree: Node)
    ensures Statistics.Within(Complexities(FunctionNodes(Walk(tree))), 1, Complexity(tree))
  {
    var fs := FunctionNodes(Walk(tree));
    var cs := Complexities(fs);
    forall i | 0 <= i < |cs|
      ensures 1 <= cs[i] <= Complexity(tree)
    {
      assert cs[i] == Complexity(fs[i]);
      PartComplexityBounds(tree, fs[i]);
    }
  }

  /** A node of the walk has complexity at least 1 and at most the tree's. */
  lemma PartComplexityBounds(tree: Node, x: Node)
    requires x in Walk(tree)
    ensures 1 <= Complexity(x) <= Complexity(tree)
  {
    SumOverNonNegative(NodeComplexity, Walk(x));
    WalkSumOfPart(NodeComplexity, tree, x);
  }

  /** The total is at least 1; a per-function mean or median lies between 1
      and the total. */
  lemma McCabeBounds(lib: Library, py: Py, total: bool, useMedian: bool)
    requires IsValidSyntax(lib, py)
    ensures McCabe(lib, py, true, useMedian).value.ToReal() >= 1.0
    ensures !total && FunctionNodes(Walk(Tree(lib, py).value)) != [] ==>
      1.0 <= McCabe(lib, py, total, useMedian).value.ToReal() <= Complexity(Tree(lib, py).value) as real
  {
    var tree := Tree(lib, py).value;
    SumOverNonNegative(NodeComplexity, Walk(tree));
    var fs := FunctionNodes(Walk(tree));
    if !total && fs != [] {
      FunctionComplexityBounds(tree);
      TextStats.StatWithin(Complexities(fs), false, useMedian, 1, Complexity(tree));
    }
  }

  // ---------------------------------------------------------------------
  // User-defined names

  /** The names a loop, comprehension or `with` target binds: a name, or the
      plain names directly inside a tuple or list. */
  function TargetNames(t: Node): set<string>
  {
    match t
    case Name(id) => {id}
    case TupleOrList(elts) => set e | e in elts && e.Name? :: e.id
    case _ => {}
  }

  /** An assignment target: as a loop target, or the attribute of `x.attr`. */
  function AssignTargetNames(t: Node): set<string>
  {
    if t.Attribute? then {t.attr} else TargetNames(t)
  }

  /** The target of an augmented or annotated assignment: a name or an attribute. */
  function NameOrAttribute(t: Node): set<string>
  {
    match t
    case Name(id) => {id}
    case Attribute(_, attr) => {attr}
    case _ => {}
  }

  function ArgNames(args: seq<Node>): set<string>
  {
    set a | a in args && a.Arg? :: a.arg
  }

  function OptArgName(a: Option<Node>): set<string>
  {
    if a.Some? && a.value.Arg? then {a.value.arg} else {}
  }

  /** The parameters of a signature: positional, positional-only, keyword-only,
      `*args` and `**kwargs`. */
  function SignatureNames(args: Node): set<string>
  {
    match args
    case Arguments(po, pos, va, kwo, _, kwa, _) =>
      ArgNames(pos) + ArgNames(po) + ArgNames(kwo) + OptArgName(va) + OptArgName(kwa)
    case _ => {}
  }

  /** The names one visited node defines. */
  function NodeNames(n: Node): set<string>
  {
    match n
    case FunctionDef(_, name, args, _, _, _) => {name} + SignatureNames(args)
    case ClassDef(name, _, _, _, _) => {name}
    case Assign(targets, _) => set t, x | t in targets && x in AssignTargetNames(t) :: x
    case AugAssign(target, _) => NameOrAttribute(target)
    case AnnAssign(target, _, _) => NameOrAttribute(target)
    case NamedExpr(target, _) => if target.Name? then {target.id} else {}
    case For(isAsync, target, _, _, _) => if isAsync then {} else TargetNames(target)
    case Comp(_, generators) =>
      set g, x | g in generators && g.Comprehension? && x in TargetNames(g.target) :: x
    case ExceptHandler(_, name, _) => if name.Some? && name.value != [] then {name.value} else {}
    case WithItem(_, vars) => if vars.Some? then TargetNames(vars.value) else {}
    case Global(ids) => set x | x in ids
    case Nonlocal(ids) => set x | x in ids
    case _ => {}
  }

  /** `self`, `cls` and names starting or ending with a double underscore are
      not reported. */
  predicate Excluded(name: string)
  {
    name == "self" || name == "cls" || StartsWith(name, "__") || EndsWith(name, "__")
  }

  function Kept(names: set<string>): (r: set<string>)
    ensures forall x :: x in r <==> x in names && !Excluded(x)
  {
    set x | x in names && !Excluded(x)
  }

  /** `user_defined_names`: the names defined anywhere in the tree, less the
      excluded ones; none when the code does not parse. */
  method UserDefinedNames(lib: Library, py: Py) returns (ns: NameStats.Names)
    ensures !IsValidSyntax(lib, py) ==> ns.names == {}
    ensures IsValidSyntax(lib, py) ==> forall x :: x in ns.names <==>
      !Excluded(x) && exists i :: 0 <= i < |Preorder(Tree(lib, py).value)| && x in NodeNames(Preorder(Tree(lib, py).value)[i])
  {
    var tree := Tree(lib, py);
    if tree.None? {
      return NameStats.Names({});
    }
    var walk := Walk(tree.value);
    var userNames: set<string> := {};
    for k := 0 to |walk|
      invariant userNames == UnionOver(NodeNames, walk[..k])
    {
      UnionOverSnoc(NodeNames, walk, k);
      userNames := userNames + NodeNames(walk[k]);
    }
    assert walk[..|walk|] == walk;
    WalkUnion(NodeNames, tree.value);
    forall x | true
      ensures x in userNames <==> exists i :: 0 <= i < |Preorder(tree.value)| && x in NodeNames(Preorder(tree.value)[i])
    {
      UnionOverMember(NodeNames, Preorder(tree.value), x);
    }
    ns := NameStats.Names(Kept(userNames));
  }

  /** Worked case: `for self, (a, b) in pairs` binds `self` only: a nested
      tuple is not looked into. */
  lemma NestedTargetsNotCollected()
    ensures NodeNames(For(false, TupleOrList([Name("self"), TupleOrList([Name("a"), Name("b")])]),
                          Name("pairs"), [], [])) == {"self"}
  {
    var inner := TupleOrList([Name("a"), Name("b")]);
    var elts := [Name("self"), inner];
    assert forall e :: e in elts && e.Name? ==> e == Name("self");
  }

  // ---------------------------------------------------------------------
  // Comments

  /** A comment token without its leading `#` characters and surrounding
      whitespace. */
  function CommentText(token: string): string
  {
    Strip(LStripChar(token, '#'))
  }

  /** The text of a comment token when it is not empty. */
  function KeptComment(token: string): (kept: seq<string>)
    ensures |kept| <= 1
  {
    var text := CommentText(token);
    if text != [] then [text] else []
  }

  /** The non-empty comment texts, in token order. */
  function CommentTexts(tokens: seq<string>): (texts: seq<string>)
    ensures |texts| <= |tokens|
  {
    FlatMapAtMostOne(KeptComment, tokens);
    FlatMap(KeptComment, tokens)
  }

  /** `comments`. */
  method Comments(lib: Library, py: Py) returns (ta: TextStats.TextAnalysis)
    ensures ta.texts == if IsValidSyntax(lib, py) then CommentTexts(lib.commentTokens(py.content)) else []
  {
    if !IsValidSyntax(lib, py) {
      return TextStats.TextAnalysis([]);
    }
    var tokens := lib.commentTokens(py.content);
    var comments: seq<string> := [];
    for k := 0 to |tokens|
      invariant comments == FlatMap(KeptComment, tokens[..k])
    {
      FlatMapSnoc(KeptComment, tokens, k);
      var text := CommentText(tokens[k]);
      if text != [] {
        comments := comments + [text];
      }
    }
    assert tokens[..|tokens|] == tokens;
    ta := TextStats.TextAnalysis(comments);
  }

  /** Every comment kept is non-empty and already stripped. */
  lemma CommentsStripped(tokens: seq<string>)
    ensures forall t :: t in CommentTexts(tokens) ==> t != [] && Strip(t) == t
  {
    forall t | t in CommentTexts(tokens)
      ensures t != [] && Strip(t) == t
    {
      FlatMapMember(KeptComment, tokens, t);
      var i :| 0 <= i < |tokens| && t in KeptComment(tokens[i]);
      KeptCommentStripped(tokens[i]);
    }
  }

  lemma KeptCommentStripped(token: string)
    ensures forall t :: t in KeptComment(token) ==> t != [] && Strip(t) == t
  {
    StripIdempotent(LStripChar(token, '#'));
  }

  /** A token is dropped exactly when nothing but `#` characters and whitespace
      make it up. */
  lemma CommentDropped(token: string)
    ensures KeptComment(token) == [] <==> Blank(LStripChar(token, '#'))
  {
    StripEmptyIffBlank(LStripChar(token, '#'));
  }

  // ---------------------------------------------------------------------
  // Docstrings and logical lines

  /** The statements of a module, function or class body. */
  function DocBody(n: Node): seq<Node>
  {
    match n
    case Module(body) => body
    case FunctionDef(_, _, _, body, _, _) => body
    case ClassDef(_, _, _, body, _) => body
    case _ => []
  }

  /** `extract_docstring`: the stripped string of a body whose first statement
      is a string constant on its own. */
  function ExtractDocstring(n: Node): (d: Option<string>)
    ensures d.Some? ==> Strip(d.value) == d.value
  {
    var body := DocBody(n);
    if body != [] && body[0].Expr? && body[0].value.Constant? && body[0].value.constant.StrConst? then
      StripIdempotent(body[0].value.constant.str);
      Some(Strip(body[0].value.constant.str))
    else None
  }

  /** A docstring counts when it is present and not empty. */
  function Truthy(d: Option<string>): seq<string>
  {
    if d.Some? && d.value != [] then [d.value] else []
  }

  predicate IsDefinition(n: Node) { n.FunctionDef? || n.ClassDef? }

  /** The docstring a visited node contributes. */
  function DefinitionDocstring(n: Node): (ds: seq<string>)
    ensures |ds| <= 1 && (ds != [] ==> IsDefinition(n))
    ensures forall d :: d in ds ==> d != [] && Strip(d) == d
  {
    if IsDefinition(n) then Truthy(ExtractDocstring(n)) else []
  }

  /** The docstrings of the function and class definitions among `xs`, in order. */
  function DefinitionDocstrings(xs: seq<Node>): (ds: seq<string>)
    ensures forall d :: d in ds ==> d != [] && Strip(d) == d
  {
    var ds := FlatMap(DefinitionDocstring, xs);
    assert forall d :: d in ds ==> d != [] && Strip(d) == d by {
      forall d | d in ds
        ensures d != [] && Strip(d) == d
      {
        FlatMapMember(DefinitionDocstring, xs, d);
      }
    }
    ds
  }

  /** The module docstring first, then those of the definitions in walk order. */
  function DocstringsOf(tree: Node): (ds: seq<string>)
  {
    Truthy(ExtractDocstring(tree)) + DefinitionDocstrings(Walk(tree))
  }

  /** `docstrings`, as a value the other properties can use. */
  function DocstringTexts(lib: Library, py: Py): seq<string>
  {
    match Tree(lib, py)
    case None => []
    case Some(tree) => DocstringsOf(tree)
  }

  /** `docstrings`, visiting the nodes in `ast.walk` order. */
  method Docstrings(lib: Library, py: Py) returns (ta: TextStats.TextAnalysis)
    ensures ta.texts == DocstringTexts(lib, py)
  {
    var tree := Tree(lib, py);
    if tree.None? {
      return TextStats.TextAnalysis([]);
    }
    var docstrings: seq<string> := [];
    var moduleDocstring := ExtractDocstring(tree.value);
    if moduleDocstring.Some? && moduleDocstring.value != [] {
      docstrings := [moduleDocstring.value];
    }
    assert docstrings == Truthy(ExtractDocstring(tree.value));
    var found := CollectDocstrings(Walk(tree.value));
    ta := TextStats.TextAnalysis(docstrings + found);
  }

  /** The loop over `ast.walk(tree)` that keeps each definition's non-empty docstring. */
  method CollectDocstrings(walk: seq<Node>) returns (found: seq<string>)
    ensures found == DefinitionDocstrings(walk)
  {
    found := [];
    for k := 0 to |walk|
      invariant found == FlatMap(DefinitionDocstring, walk[..k])
    {
      FlatMapSnoc(DefinitionDocstring, walk, k);
      var node := walk[k];
      if IsDefinition(node) {
        var docstring := ExtractDocstring(node);
        if docstring.Some? && docstring.value != [] {
          found := found + [docstring.value];
        }
      }
    }
    assert walk[..|walk|] == walk;
  }

  function DefinitionCount(xs: seq<Node>): nat
  {
    if xs == [] then 0 else (if IsDefinition(xs[0]) then 1 else 0) + DefinitionCount(xs[1..])
  }

  lemma {:induction false} DefinitionDocstringsAtMost(xs: seq<Node>)
    ensures |FlatMap(DefinitionDocstring, xs)| <= DefinitionCount(xs)
  {
    if xs != [] {
      DefinitionDocstringsAtMost(xs[1..]);
    }
  }

  /** Every docstring is non-empty and stripped; the module's comes first, and
      there is at most one more than there are definitions. */
  lemma DocstringsSpec(tree: Node)
    ensures forall d :: d in DocstringsOf(tree) ==> d != [] && Strip(d) == d
    ensures |DocstringsOf(tree)| <= 1 + DefinitionCount(Walk(tree))
    ensures Truthy(ExtractDocstring(tree)) != [] ==> DocstringsOf(tree)[0] == ExtractDocstring(tree).value
  {
    DefinitionDocstringsAtMost(Walk(tree));
  }

  /** `lloc`: radon's logical lines less one per docstring; `None` when radon
      fails. */
  function Lloc(lib: Library, py: Py): (r: Option<int>)
    ensures r.Some? <==> lib.rawLloc(py.content).Some?
    ensures r.Some? ==> r.value + |DocstringTexts(lib, py)| == lib.rawLloc(py.content).value
  {
    match lib.rawLloc(py.content)
    case None => None
    case Some(raw) => Some(raw - |DocstringTexts(lib, py)|)
  }

  // ---------------------------------------------------------------------
  // Code that does not parse

  /** Each analysis has its own answer for code that does not parse. */
  lemma InvalidSyntaxResults(lib: Library, py: Py, total: bool, useMedian: bool)
    requires !IsValidSyntax(lib, py)
    ensures NImports(lib, py) == None
    ensures McCabe(lib, py, total, useMedian) == None
    ensures DocstringTexts(lib, py) == []
    ensures Lloc(lib, py) == (if lib.rawLloc(py.content).Some? then lib.rawLloc(py.content) else None)
  {
  }
}
