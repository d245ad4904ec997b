/** The IPython notebook importer (`notebookConverter` in file_ipython.js): each cell of
    the first worksheet is converted to a Beaker cell and appended, with its id, to the
    notebook's cell list and to the `root` and `IPython` tag lists.

    JSON is modelled with the JavaScript truthiness the converter relies on: an absent
    array is `None`, and a present array is truthy even when empty, so the converter's
    `x && x.length > 0` becomes `NonEmpty(x)`. `bkHelper.generateId(6)` is the parameter
    `gen`, indexed by how many ids have been generated so far. */
module IPythonImport {
  import opened Wrappers

  /** One entry of a code cell's `outputs`. `text` and `png` are absent when `None`. */
  datatype IpyOutput = IpyOutput(outputType: string, text: Option<seq<string>>, png: Option<string>)

  /** One IPython cell. Fields a cell type does not use are `None`. */
  datatype IpyCell = IpyCell(
    cellType: string,
    input: Option<seq<string>>,
    outputs: Option<seq<IpyOutput>>,
    source: Option<seq<string>>,
    level: Option<int>)

  datatype Worksheet = Worksheet(cells: Option<seq<IpyCell>>)

  datatype IpyNotebook = IpyNotebook(worksheets: Option<seq<Worksheet>>)

  /** The `result` of a Beaker code cell's output: never assigned, assigned `undefined`
      (`text[0]` of an empty array), a string, or an ImageIcon object. */
  datatype OutputResult = Unset | Undefined | TextValue(value: string) | ImageIcon(imageData: string)

  /** A code cell's `output` object; `selectedType` is absent when `None`. */
  datatype CellOutput = CellOutput(selectedType: Option<string>, result: OutputResult)

  /** The four kinds of Beaker cell the converter emits; `title` is absent when `None`. */
  datatype BkrCell =
    | CodeCell(id: string, evaluator: string, body: string, output: CellOutput)
    | MarkdownCell(id: string, body: string, mode: string)
    | TextCell(id: string, body: string)
    | SectionCell(id: string, level: Option<int>, body: string, title: Option<string>)

  datatype EvaluatorEntry = EvaluatorEntry(
    name: string, plugin: string, imports: Option<string>, supplementalClassPath: Option<string>)

  /** A Beaker notebook: `root` is `tagMap.root`, `initialization` and `ipythonTags` are
      `tagMap2.initialization` and `tagMap2.IPython`. */
  datatype BeakerNotebook = BeakerNotebook(
    beaker: string,
    evaluators: seq<EvaluatorEntry>,
    cells: seq<BkrCell>,
    root: seq<string>,
    initialization: seq<string>,
    ipythonTags: seq<string>)

  /** The value of a Beaker cell's `type` field. */
  function KindOf(b: BkrCell): string {
    match b
    case CodeCell(_, _, _, _) => "code"
    case MarkdownCell(_, _, _) => "markdown"
    case TextCell(_, _) => "text"
    case SectionCell(_, _, _, _) => "section"
  }

  /** `x && x.length > 0` on an array field. */
  predicate NonEmpty(x: Option<seq<string>>) {
    x.Some? && |x.value| > 0
  }

  /** A string field is truthy when present and not "". */
  predicate Truthy(x: Option<string>) {
    x.Some? && x.value != ""
  }

  /** Array.prototype.join: the lines with `sep` between neighbours. */
  function Join(lines: seq<string>, sep: string): string
    decreases |lines|
  {
    if |lines| == 0 then ""
    else if |lines| == 1 then lines[0]
    else Join(lines[..|lines| - 1], sep) + sep + lines[|lines| - 1]
  }

  /** The lines one after the other. */
  function Concat(lines: seq<string>): string
    decreases |lines|
  {
    if |lines| == 0 then "" else lines[0] + Concat(lines[1..])
  }

  function TotalLength(lines: seq<string>): nat
    decreases |lines|
  {
    if |lines| == 0 then 0 else |lines[0]| + TotalLength(lines[1..])
  }

  lemma {:induction false} ConcatSnoc(lines: seq<string>, last: string)
    ensures Concat(lines + [last]) == Concat(lines) + last
    ensures TotalLength(lines + [last]) == TotalLength(lines) + |last|
    decreases |lines|
  {
    if |lines| == 0 {
      assert lines + [last] == [last];
      assert [last][1..] == [];
    } else {
      assert (lines + [last])[0] == lines[0];
      assert (lines + [last])[1..] == lines[1..] + [last];
      ConcatSnoc(lines[1..], last);
    }
  }

  /** Joining with "" is plain concatenation. */
  lemma {:induction false} JoinEmptySeparator(lines: seq<string>)
    ensures Join(lines, "") == Concat(lines)
    decreases |lines|
  {
    if |lines| == 1 {
      assert lines == [] + [lines[0]];
      ConcatSnoc([], lines[0]);
    } else if |lines| > 1 {
      var init := lines[..|lines| - 1];
      JoinEmptySeparator(init);
      assert lines == init + [lines[|lines| - 1]];
      ConcatSnoc(init, lines[|lines| - 1]);
    }
  }

  /** A join of n > 0 lines holds every character of the lines plus n - 1 separators. */
  lemma {:induction false} JoinLength(lines: seq<string>, sep: string)
    requires |lines| > 0
    ensures |Join(lines, sep)| == TotalLength(lines) + (|lines| - 1) * |sep|
    decreases |lines|
  {
    var init := lines[..|lines| - 1];
    assert lines == init + [lines[|lines| - 1]];
    ConcatSnoc(init, lines[|lines| - 1]);
    if |lines| == 1 {
      assert init == [];
    } else {
      JoinLength(init, sep);
    }
  }

  /** convertCodeCell's `output`: only `outputs[0]` is looked at. */
  function CodeOutput(outputs: Option<seq<IpyOutput>>): CellOutput {
    if outputs.Some? && |outputs.value| > 0 then
      var first := outputs.value[0];
      if first.outputType == "pyout" && first.text.Some? then
        CellOutput(Some("Text"), if |first.text.value| > 0 then TextValue(first.text.value[0]) else Undefined)
      else if first.outputType == "display_data" && Truthy(first.png) then
        CellOutput(Some("Image"), ImageIcon(first.png.value))
      else
        CellOutput(None, Unset)
    else
      CellOutput(None, TextValue(""))
  }

  function ConvertCodeCell(c: IpyCell, gid: string): (r: BkrCell)
    ensures r.CodeCell? && r.id == "code" + gid && r.evaluator == "IPython"
  {
    CodeCell("code" + gid, "IPython",
             if NonEmpty(c.input) then Join(c.input.value, "") else "",
             CodeOutput(c.outputs))
  }

  function ConvertMarkDownCell(c: IpyCell, gid: string): (r: BkrCell)
    ensures r.MarkdownCell? && r.id == "markdown" + gid && r.mode == "preview"
  {
    MarkdownCell("markdown" + gid, if NonEmpty(c.source) then Join(c.source.value, "") else "", "preview")
  }

  function ConvertRawCell(c: IpyCell, gid: string): (r: BkrCell)
    ensures r.TextCell? && r.id == "text" + gid
  {
    TextCell("text" + gid, if NonEmpty(c.source) then Join(c.source.value, " ") else "")
  }

  function ConvertHeadingCell(c: IpyCell, gid: string): (r: BkrCell)
    ensures r.SectionCell? && r.id == "section" + gid && r.body == ""
  {
    SectionCell("section" + gid, c.level, "",
                if NonEmpty(c.source) then Some(Join(c.source.value, "\n")) else None)
  }

  predicate IsRecognised(c: IpyCell) {
    c.cellType in {"code", "markdown", "raw", "heading"}
  }

  /** The body of the forEach callback: the converted cell, or None for an unrecognised
      cell type, which is dropped without generating an id. */
  function ConvertCell(c: IpyCell, gid: string): (r: Option<BkrCell>)
    ensures r.Some? <==> IsRecognised(c)
    ensures r.Some? ==> r.value.id == KindOf(r.value) + gid
    ensures r.Some? ==> ((r.value.CodeCell? <==> c.cellType == "code") &&
                         (r.value.MarkdownCell? <==> c.cellType == "markdown") &&
                         (r.value.TextCell? <==> c.cellType == "raw") &&
                         (r.value.SectionCell? <==> c.cellType == "heading"))
  {
    if c.cellType == "code" then Some(ConvertCodeCell(c, gid))
    else if c.cellType == "markdown" then Some(ConvertMarkDownCell(c, gid))
    else if c.cellType == "raw" then Some(ConvertRawCell(c, gid))
    else if c.cellType == "heading" then Some(ConvertHeadingCell(c, gid))
    else None
  }

  /** newBeakerNotebook(). */
  function NewBeakerNotebook(): (nb: BeakerNotebook)
    ensures nb.beaker == "2"
    ensures |nb.evaluators| == 3
    ensures nb.evaluators[0].name == "Html" && nb.evaluators[1].name == "Latex" && nb.evaluators[2].name == "IPython"
    ensures nb.cells == [] && nb.root == [] && nb.initialization == [] && nb.ipythonTags == []
  {
    BeakerNotebook(
      "2",
      [EvaluatorEntry("Html", "Html", None, None),
       EvaluatorEntry("Latex", "Latex", None, None),
       EvaluatorEntry("IPython", "IPython", Some(""), Some(""))],
      [], [], [], [])
  }

  /** The recognised cells, in their original order. */
  function Recognised(cs: seq<IpyCell>): seq<IpyCell>
    decreases |cs|
  {
    if |cs| == 0 then []
    else Recognised(cs[..|cs| - 1]) + (if IsRecognised(cs[|cs| - 1]) then [cs[|cs| - 1]] else [])
  }

  /** What the forEach has pushed after visiting `cs`; the k-th pushed cell got the k-th
      generated id. */
  function Converted(cs: seq<IpyCell>, gen: nat -> string): seq<BkrCell>
    decreases |cs|
  {
    if |cs| == 0 then []
    else
      var before := Converted(cs[..|cs| - 1], gen);
      match ConvertCell(cs[|cs| - 1], gen(|before|))
      case None => before
      case Some(b) => before + [b]
  }

  function Ids(cells: seq<BkrCell>): (ids: seq<string>)
    ensures |ids| == |cells| && forall k :: 0 <= k < |cells| ==> ids[k] == cells[k].id
  {
    seq(|cells|, k requires 0 <= k < |cells| => cells[k].id)
  }

  /** Dropping unrecognised cells commutes with splitting the list: order is kept. */
  lemma {:induction false} RecognisedAppend(a: seq<IpyCell>, b: seq<IpyCell>)
    ensures Recognised(a + b) == Recognised(a) + Recognised(b)
    decreases |b|
  {
    if |b| == 0 {
      assert a + b == a;
    } else {
      var ab := a + b;
      assert ab[..|ab| - 1] == a + b[..|b| - 1];
      assert ab[|ab| - 1] == b[|b| - 1];
      RecognisedAppend(a, b[..|b| - 1]);
    }
  }

  /** A cell survives exactly when it occurs in the input and has a recognised type. */
  lemma {:induction false} RecognisedMembers(cs: seq<IpyCell>, c: IpyCell)
    ensures c in Recognised(cs) <==> c in cs && IsRecognised(c)
    decreases |cs|
  {
    if |cs| > 0 {
      var init := cs[..|cs| - 1];
      RecognisedMembers(init, c);
      assert cs == init + [cs[|cs| - 1]];
      assert c in cs <==> c in init || c == cs[|cs| - 1];
    }
  }

  /** The loop's output is the recognised cells, each converted in order with the id
      generated for it: a filter followed by a map. */
  lemma {:induction false} ConvertedIsFilterMap(cs: seq<IpyCell>, gen: nat -> string)
    ensures |Converted(cs, gen)| == |Recognised(cs)|
    ensures forall k :: 0 <= k < |Recognised(cs)| ==>
              ConvertCell(Recognised(cs)[k], gen(k)) == Some(Converted(cs, gen)[k])
    decreases |cs|
  {
    if |cs| > 0 {
      ConvertedIsFilterMap(cs[..|cs| - 1], gen);
    }
  }

  /** A code cell's body is its input lines concatenated, or "" when there are none. */
  lemma CodeInputBody(c: IpyCell, gid: string)
    ensures ConvertCodeCell(c, gid).body == if c.input.Some? then Concat(c.input.value) else ""
  {
    if c.input.Some? {
      JoinEmptySeparator(c.input.value);
    }
  }

  /** Two code cells with the same input and the same first output convert alike, whatever
      follows the first output. */
  lemma CodeOutputFirstOnly(c: IpyCell, d: IpyCell, gid: string)
    requires c.input == d.input
    requires c.outputs.Some? && d.outputs.Some? && |c.outputs.value| > 0 && |d.outputs.value| > 0
    requires c.outputs.value[0] == d.outputs.value[0]
    ensures ConvertCodeCell(c, gid) == ConvertCodeCell(d, gid)
  {
  }

  /** The four outcomes of the first-output inspection. */
  lemma CodeOutputCases(outputs: Option<seq<IpyOutput>>)
    ensures var o := CodeOutput(outputs);
            var has := outputs.Some? && |outputs.value| > 0;
            var pyout := has && outputs.value[0].outputType == "pyout" && outputs.value[0].text.Some?;
            var image := has && !pyout && outputs.value[0].outputType == "display_data" && Truthy(outputs.value[0].png);
            (o.selectedType == Some("Text") <==> pyout) &&
            (pyout && |outputs.value[0].text.value| > 0 ==> o.result == TextValue(outputs.value[0].text.value[0])) &&
            (o.selectedType == Some("Image") <==> image) &&
            (image ==> o.result == ImageIcon(outputs.value[0].png.value)) &&
            (has && !pyout && !image <==> o.selectedType.None? && o.result.Unset?) &&
            (!has ==> o == CellOutput(None, TextValue("")))
  {
  }

  /** Markdown joins with "", raw with " "; a heading's title joins with a newline, is set
      only when there is source, and its level is copied unchanged. */
  lemma Separators(c: IpyCell, gid: string)
    ensures ConvertMarkDownCell(c, gid).body == if NonEmpty(c.source) then Join(c.source.value, "") else ""
    ensures ConvertRawCell(c, gid).body == if NonEmpty(c.source) then Join(c.source.value, " ") else ""
    ensures ConvertHeadingCell(c, gid).title.Some? <==> NonEmpty(c.source)
    ensures NonEmpty(c.source) ==> ConvertHeadingCell(c, gid).title == Some(Join(c.source.value, "\n"))
    ensures ConvertHeadingCell(c, gid).level == c.level
  {
  }

  /** convert(ipyNb): fails (a TypeError in the original) when there is no first worksheet. */
  method Convert(ipy: IpyNotebook, gen: nat -> string) returns (r: Result<BeakerNotebook, string>)
    ensures r.Failure? <==>
              ipy.worksheets.None? || |ipy.worksheets.value| == 0 || ipy.worksheets.value[0].cells.None?
    ensures r.Success? ==>
              var cs := ipy.worksheets.value[0].cells.value;
              var empty := NewBeakerNotebook();
              r.value.cells == Converted(cs, gen)
              && r.value.root == Ids(r.value.cells)
              && r.value.ipythonTags == Ids(r.value.cells)
              && r.value.beaker == empty.beaker
              && r.value.evaluators == empty.evaluators
              && r.value.initialization == empty.initialization
  {
    if ipy.worksheets.None? || |ipy.worksheets.value| == 0 {
      return Failure("worksheets[0] is undefined");
    }
    if ipy.worksheets.value[0].cells.None? {
      return Failure("worksheets[0].cells is undefined");
    }
    var cs := ipy.worksheets.value[0].cells.value;
    var nb := NewBeakerNotebook();
    for i := 0 to |cs|
      invariant nb.cells == Converted(cs[..i], gen)
      invariant nb.root == Ids(nb.cells) && nb.ipythonTags == Ids(nb.cells)
      invariant nb.beaker == "2" && nb.evaluators == NewBeakerNotebook().evaluators && nb.initialization == []
    {
      assert cs[..i + 1][..i] == cs[..i];
      var cell := ConvertCell(cs[i], gen(|nb.cells|));
      if cell.Some? {
        var b := cell.value;
        nb := nb.(cells := nb.cells + [b], root := nb.root + [b.id], ipythonTags := nb.ipythonTags + [b.id]);
      }
    }
    assert cs[..|cs|] == cs;
    return Success(nb);
  }
}
