/** The analyser of a Jupyter notebook: opening it, counting its cells by
    type, and extracting its code cells (as Python code) or its markdown
    cells (as text). Reading and parsing the notebook file (`nbformat.read`)
    is outside the model: it is supplied as a function of the file's text. */
module Notebooks {
  import opened Common
  import opened Strings
  import PyCode
  import TextStats

  /** One cell: its `cell_type` (`"code"`, `"markdown"` or `"raw"`) and its `source`. */
  datatype Cell = Cell(cellType: string, source: string)

  datatype Notebook = Notebook(path: PyCode.Path, cells: seq<Cell>)

  /** `Notebook(path)`: the file must exist, must be named `*.ipynb`, and must
      read as a notebook; `read` is `nbformat.read` on the file's text, `None`
      when parsing raises. A file that cannot be opened or decoded is refused
      like one that does not parse. */
  function NewNotebook(read: string -> Option<seq<Cell>>, path: PyCode.Path): (r: Result<Notebook>)
    ensures r == Err(FileNotFoundError) <==> !path.present
    ensures path.present && path.suffix != ".ipynb" ==> r == Err(ValueError)
    ensures r.Ok? <==> path.present && path.suffix == ".ipynb" && path.read.Text? && read(path.read.text).Some?
    ensures r.Ok? ==> r.value.cells == read(path.read.text).value && r.value.path == path
    ensures r.Err? ==> r.error in {FileNotFoundError, ValueError}
  {
    if !path.present then Err(FileNotFoundError)
    else if path.suffix != ".ipynb" then Err(ValueError)
    else if !path.read.Text? then Err(ValueError)
    else
      match read(path.read.text)
      case None => Err(ValueError)
      case Some(cells) => Ok(Notebook(path, cells))
  }

  // ---------------------------------------------------------------------
  // Counting cells

  /** The cells of the given type, in notebook order. */
  function OfType(cells: seq<Cell>, t: string): (r: seq<Cell>)
    ensures |r| <= |cells|
    ensures forall c :: c in r <==> c in cells && c.cellType == t
  {
    if cells == [] then []
    else (if cells[0].cellType == t then [cells[0]] else []) + OfType(cells[1..], t)
  }

  /** `n_cells(cell_type)`: all cells when no type is given, else the cells of that type. */
  function NCells(nb: Notebook, cellType: Option<string>): (n: nat)
    ensures n <= |nb.cells|
    ensures cellType.None? ==> n == |nb.cells|
    ensures cellType.Some? ==> n == |OfType(nb.cells, cellType.value)|
    ensures cellType.Some? && (forall i :: 0 <= i < |nb.cells| ==> nb.cells[i].cellType != cellType.value) ==> n == 0
  {
    match cellType
    case None => |nb.cells|
    case Some(t) =>
      var r := OfType(nb.cells, t);
      assert r != [] ==> r[0] in nb.cells;
      |r|
  }

  /** The three cell types of the notebook format partition the cells: their
      counts add up to the number of cells. */
  lemma {:induction false} CellTypesPartition(cells: seq<Cell>)
    requires forall i :: 0 <= i < |cells| ==> cells[i].cellType in {"code", "markdown", "raw"}
    ensures |OfType(cells, "code")| + |OfType(cells, "markdown")| + |OfType(cells, "raw")| == |cells|
  {
    if cells != [] {
      CellTypesPartition(cells[1..]);
    }
  }

  /** Two different types never share a cell, so their counts add up to at most all cells. */
  lemma {:induction false} DistinctTypesAtMostAll(cells: seq<Cell>, t: string, u: string)
    requires t != u
    ensures |OfType(cells, t)| + |OfType(cells, u)| <= |cells|
  {
    if cells != [] {
      DistinctTypesAtMostAll(cells[1..], t, u);
    }
  }

  // ---------------------------------------------------------------------
  // Extracting cells

  /** A cell of type `t` whose source is not blank (`cell.source.strip()` is truthy). */
  predicate Selected(c: Cell, t: string)
  {
    c.cellType == t && Strip(c.source) != []
  }

  /** A code cell that `extract("code")` keeps: not blank, and `Py(source)`
      builds and parses; a cell whose `Py` raises would be skipped. */
  predicate ValidCode(lib: PyCode.Library, c: Cell)
  {
    Selected(c, "code")
    && var py := PyCode.NewPy(PyCode.TextSource(c.source));
       py.Ok? && PyCode.IsValidSyntax(lib, py.value)
  }

  /** The sources of the non-blank cells of type `t`, in notebook order. */
  function Sources(cells: seq<Cell>, t: string): (r: seq<string>)
    ensures |r| <= |OfType(cells, t)|
    ensures forall s :: s in r ==> !Blank(s)
  {
    if cells == [] then []
    else
      var rest := Sources(cells[1..], t);
      if Selected(cells[0], t) then
        StripEmptyIffBlank(cells[0].source);
        [cells[0].source] + rest
      else rest
  }

  /** The sources of the code cells `extract("code")` keeps, in notebook order. */
  function ValidCodeSources(lib: PyCode.Library, cells: seq<Cell>): seq<string>
  {
    if cells == [] then []
    else (if ValidCode(lib, cells[0]) then [cells[0].source] else []) + ValidCodeSources(lib, cells[1..])
  }

  lemma ValidCodeSourcesSnoc(lib: PyCode.Library, cells: seq<Cell>, k: nat)
    requires k < |cells|
    ensures ValidCodeSources(lib, cells[..k + 1])
         == ValidCodeSources(lib, cells[..k]) + (if ValidCode(lib, cells[k]) then [cells[k].source] else [])
  {
    ValidCodeSourcesAppend(lib, cells[..k], [cells[k]]);
    assert cells[..k + 1] == cells[..k] + [cells[k]];
  }

  lemma {:induction false} ValidCodeSourcesAppend(lib: PyCode.Library, a: seq<Cell>, b: seq<Cell>)
    ensures ValidCodeSources(lib, a + b) == ValidCodeSources(lib, a) + ValidCodeSources(lib, b)
  {
    if a == [] {
      assert a + b == b;
    } else {
      assert (a + b)[0] == a[0];
      assert (a + b)[1..] == a[1..] + b;
      ValidCodeSourcesAppend(lib, a[1..], b);
    }
  }

  /** A source is extracted exactly when some cell holding it is a non-blank
      code cell that parses. */
  lemma {:induction false} ValidCodeSourcesSpec(lib: PyCode.Library, cells: seq<Cell>, s: string)
    ensures s in ValidCodeSources(lib, cells)
        <==> exists i :: 0 <= i < |cells| && ValidCode(lib, cells[i]) && cells[i].source == s
  {
    if cells != [] {
      ValidCodeSourcesSpec(lib, cells[1..], s);
      if s in ValidCodeSources(lib, cells) && !(ValidCode(lib, cells[0]) && cells[0].source == s) {
        var i :| 0 <= i < |cells[1..]| && ValidCode(lib, cells[1..][i]) && cells[1..][i].source == s;
        assert cells[i + 1] == cells[1..][i];
      }
      if exists i :: 0 <= i < |cells| && ValidCode(lib, cells[i]) && cells[i].source == s {
        var i :| 0 <= i < |cells| && ValidCode(lib, cells[i]) && cells[i].source == s;
        if i > 0 {
          assert cells[1..][i - 1] == cells[i];
        }
      }
    }
  }

  /** Every extracted code cell is one of the non-blank code cells: the code
      extraction keeps a sub-list of what the markdown-style selection gives. */
  lemma {:induction false} ValidCodeAtMostSources(lib: PyCode.Library, cells: seq<Cell>)
    ensures |ValidCodeSources(lib, cells)| <= |Sources(cells, "code")| <= |OfType(cells, "code")|
  {
    if cells != [] {
      ValidCodeAtMostSources(lib, cells[1..]);
    }
  }

  /** What `extract` returns: a `Py` for the code cells, a `TextAnalysis`
      for the markdown cells. */
  datatype Extracted = CodeExtract(py: PyCode.Py) | MarkdownExtract(text: TextStats.TextAnalysis)

  /** The cells are joined with a blank line between each two. */
  const CellSeparator := "\n\n"

  /** `extract("code")`: the valid, non-blank code cells joined into one `Py`. */
  method ExtractCode(lib: PyCode.Library, nb: Notebook) returns (py: PyCode.Py)
    ensures py.content == Join(CellSeparator, ValidCodeSources(lib, nb.cells))
  {
    var validCells: seq<string> := [];
    for k := 0 to |nb.cells|
      invariant validCells == ValidCodeSources(lib, nb.cells[..k])
    {
      ValidCodeSourcesSnoc(lib, nb.cells, k);
      var cell := nb.cells[k];
      if cell.cellType == "code" && Strip(cell.source) != [] {
        var candidate := PyCode.NewPy(PyCode.TextSource(cell.source));
        if candidate.Ok? && PyCode.IsValidSyntax(lib, candidate.value) {
          validCells := validCells + [cell.source];
        }
      }
    }
    assert nb.cells[..|nb.cells|] == nb.cells;
    py := PyCode.Py(Join(CellSeparator, validCells));
  }

  /** `extract(cell_type)`: code cells as a `Py`, markdown cells as a single
      text, any other type refused. */
  method Extract(lib: PyCode.Library, nb: Notebook, cellType: string) returns (r: Result<Extracted>)
    ensures cellType == "code" ==> r == Ok(CodeExtract(PyCode.Py(Join(CellSeparator, ValidCodeSources(lib, nb.cells)))))
    ensures cellType == "markdown" ==> r == Ok(MarkdownExtract(TextStats.TextAnalysis([Join(CellSeparator, Sources(nb.cells, "markdown"))])))
    ensures r.Err? <==> cellType != "code" && cellType != "markdown"
    ensures r.Err? ==> r.error == ValueError
  {
    if cellType == "code" {
      var py := ExtractCode(lib, nb);
      r := Ok(CodeExtract(py));
    } else if cellType == "markdown" {
      var content := Join(CellSeparator, Sources(nb.cells, cellType));
      r := Ok(MarkdownExtract(TextStats.TextAnalysis([content])));
    } else {
      r := Err(ValueError);
    }
  }

  /** The markdown extraction always holds exactly one text, even when the
      notebook has no markdown: then that text is empty. Its length is the
      total of the cells' lengths plus two characters between each two cells. */
  lemma MarkdownExtractShape(nb: Notebook)
    ensures var sources := Sources(nb.cells, "markdown");
      var content := Join(CellSeparator, sources);
      TextStats.TextAnalysis([content]).Len() == 1
      && (sources == [] <==> content == [])
      && |content| == TotalLength(sources) + if sources == [] then 0 else 2 * (|sources| - 1)
  {
    var sources := Sources(nb.cells, "markdown");
    JoinLength(CellSeparator, sources);
    if sources != [] {
      assert !Blank(sources[0]);
      assert TotalLength(sources) >= |sources[0]| > 0;
    }
  }

  /** A notebook whose cells of the requested type are all blank or absent
      gives empty content: `Py("")` for code, `[""]` for markdown. */
  lemma {:induction false} NothingSelectedGivesEmpty(lib: PyCode.Library, cells: seq<Cell>, t: string)
    requires forall i :: 0 <= i < |cells| ==> !Selected(cells[i], t)
    ensures Sources(cells, t) == []
    ensures t == "code" ==> ValidCodeSources(lib, cells) == []
  {
    if cells != [] {
      NothingSelectedGivesEmpty(lib, cells[1..], t);
    }
  }
}
