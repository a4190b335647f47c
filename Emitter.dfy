/**
 * `create_symbols_file`: renders the include lines, the declarations and the
 * fill statements into the fixed C++ template. The template is written as
 * its lines; joining them with '\n' gives the template text, and since
 * `str.format` inserts each block verbatim, joining the lines with the
 * blocks in place gives the formatted document.
 */
module Emitter {
  import opened Wrappers
  import opened Strings
  import opened DebugSymbols
  import opened HeaderAggregator
  import opened IncludeScanner

  /** `'#include "{0}"'` for each local header. */
  function LocalIncludeLines(headers: seq<string>): (r: seq<string>)
    ensures |r| == |headers|
  {
    seq(|headers|, i requires 0 <= i < |headers| => "#include \"" + headers[i] + "\"")
  }

  /** `'#include <{0}>'` for each standard header. */
  function StandardIncludeLines(includes: seq<string>): (r: seq<string>)
    ensures |r| == |includes|
  {
    seq(|includes|, i requires 0 <= i < |includes| => "#include <" + includes[i] + ">")
  }

  /** `[symbol.declare for symbol in debug_symbols]` */
  function DeclareLines(symbols: seq<DebugSymbol>): (r: seq<string>)
    ensures |r| == |symbols|
  {
    seq(|symbols|, i requires 0 <= i < |symbols| => Declare(symbols[i]))
  }

  /** `[symbol.fill for symbol in debug_symbols]` */
  function FillLines(symbols: seq<DebugSymbol>): (r: seq<string>)
    ensures |r| == |symbols|
  {
    seq(|symbols|, i requires 0 <= i < |symbols| => Fill(symbols[i]))
  }

  // The longer template lines are written as two literals each, which
  // concatenate to the line as it stands in the template.

  /** Lines of the template before `{standard_includes}`. */
  function Preamble(filename: string): seq<string>
  {
    ["",
     "/*",
     " * This file is generated by " + filename + ".  Do not edit directly.",
     " */",
     "",
     "// Need to import standard headers " + "before redefining private, otherwise it",
     "// won't compile"]
  }

  /** Lines between `{standard_includes}` and `{includes}`. */
  const PrivateShim: seq<string> :=
    ["",
     "int GenDebugSymbol();",
     "",
     "#define private friend " + "int GenDebugSymbol(); private",
     ""]

  /** Lines between `{declare_symbols}` and `{fill_symbols}`. */
  const OpenInit: seq<string> :=
    ["",
     "namespace node {",
     "",
     "int GenDebugSymbol() {"]

  /** Lines after `{fill_symbols}`. */
  const CloseInit: seq<string> :=
    ["return 1;",
     "}",
     "",
     "int debug_symbols_generated " + "= GenDebugSymbol();",
     "",
     "}",
     ""]

  /** The template's lines with its five fields filled in. */
  function TemplateLines(filename: string, standardIncludes: string, includes: string,
                         declareSymbols: string, fillSymbols: string): seq<string>
  {
    Preamble(filename) + [standardIncludes] + PrivateShim + [includes] + [""] + [declareSymbols] +
    OpenInit + [fillSymbols] + CloseInit
  }

  /**
   * The generated translation unit, from the generator's own path, the local
   * headers, the standard headers and the symbol table.
   */
  function RenderSymbolsFile(filename: string, headers: seq<string>, standardIncludes: seq<string>,
                             symbols: seq<DebugSymbol>): string
  {
    Join(TemplateLines(filename,
                       Join(StandardIncludeLines(standardIncludes), '\n'),
                       Join(LocalIncludeLines(headers), '\n'),
                       Join(DeclareLines(symbols), '\n'),
                       Join(FillLines(symbols), '\n')), '\n')
  }

  /** How a joined block reads as lines: an empty block still leaves its (empty) line. */
  function Block(lines: seq<string>): (r: seq<string>)
    ensures |r| >= 1
  {
    if |lines| == 0 then [""] else lines
  }

  lemma BlockLines(lines: seq<string>)
    requires Free(lines, '\n')
    ensures Split(Join(lines, '\n'), '\n') == Block(lines)
  {
    if |lines| > 0 {
      JoinRoundTrip(lines, '\n');
    }
  }

  /** Inputs whose text holds no line break, so that every rendered item stays on its own line. */
  predicate SingleLineInputs(filename: string, headers: seq<string>, standardIncludes: seq<string>,
                             symbols: seq<DebugSymbol>)
  {
    '\n' !in filename &&
    (forall i :: 0 <= i < |headers| ==> '\n' !in headers[i]) &&
    (forall i :: 0 <= i < |standardIncludes| ==> '\n' !in standardIncludes[i]) &&
    (forall i :: 0 <= i < |symbols| ==> SingleLine(symbols[i]))
  }

  /** The lines of the document: the template's fixed lines around the four blocks, one item per line. */
  function DocumentLines(filename: string, headers: seq<string>, standardIncludes: seq<string>,
                         symbols: seq<DebugSymbol>): seq<string>
  {
    Preamble(filename) + Block(StandardIncludeLines(standardIncludes)) + PrivateShim +
    Block(LocalIncludeLines(headers)) + [""] + Block(DeclareLines(symbols)) +
    OpenInit + Block(FillLines(symbols)) + CloseInit
  }

  /** The template's fixed lines hold no line break of their own. */
  lemma FixedLinesFree(filename: string)
    requires '\n' !in filename
    ensures Free(Preamble(filename), '\n') && Free(PrivateShim, '\n')
    ensures Free(OpenInit, '\n') && Free(CloseInit, '\n')
  {
    PreambleFree(filename);
    ShimFree();
    InitFree();
  }

  lemma GeneratedByLineFree(filename: string)
    requires '\n' !in filename
    ensures '\n' !in " * This file is generated by " + filename + ".  Do not edit directly."
  {
  }

  lemma ImportCommentFree()
    ensures '\n' !in "// Need to import standard headers " + "before redefining private, otherwise it"
  {
  }

  lemma PreambleFree(filename: string)
    requires '\n' !in filename
    ensures Free(Preamble(filename), '\n')
  {
    GeneratedByLineFree(filename);
    ImportCommentFree();
  }

  lemma ShimFree()
    ensures Free(PrivateShim, '\n')
  {
  }

  lemma InitFree()
    ensures Free(OpenInit, '\n') && Free(CloseInit, '\n')
  {
    assert Free(OpenInit, '\n');
  }

  /** Each rendered item of single-line inputs stays on one line. */
  lemma ItemsFree(headers: seq<string>, standardIncludes: seq<string>, symbols: seq<DebugSymbol>)
    requires forall i :: 0 <= i < |headers| ==> '\n' !in headers[i]
    requires forall i :: 0 <= i < |standardIncludes| ==> '\n' !in standardIncludes[i]
    requires forall i :: 0 <= i < |symbols| ==> SingleLine(symbols[i])
    ensures Free(StandardIncludeLines(standardIncludes), '\n') && Free(LocalIncludeLines(headers), '\n')
    ensures Free(DeclareLines(symbols), '\n') && Free(FillLines(symbols), '\n')
  {
    forall i | 0 <= i < |symbols|
      ensures '\n' !in Declare(symbols[i]) && '\n' !in Fill(symbols[i])
    {
      assert SingleLine(symbols[i]);
    }
  }

  lemma SplitAllAppendFree(p: seq<string>, q: seq<string>)
    requires Free(q, '\n')
    ensures SplitAll(p + q, '\n') == SplitAll(p, '\n') + q
  {
    SplitAllConcat(p, q, '\n');
    SplitAllFree(q, '\n');
  }

  lemma SplitAllAppendOne(p: seq<string>, x: string)
    ensures SplitAll(p + [x], '\n') == SplitAll(p, '\n') + Split(x, '\n')
  {
    SplitAllConcat(p, [x], '\n');
    SplitAllSingle(x);
  }

  lemma SplitHead(pre: seq<string>, std: string, shim: seq<string>, loc: string)
    requires Free(pre, '\n') && Free(shim, '\n')
    ensures SplitAll(pre + [std] + shim + [loc] + [""], '\n') ==
      pre + Split(std, '\n') + shim + Split(loc, '\n') + [""]
  {
    SplitAllFree(pre, '\n');
    SplitAllAppendOne(pre, std);
    SplitAllAppendFree(pre + [std], shim);
    SplitAllAppendOne(pre + [std] + shim, loc);
    assert Free([""], '\n');
    SplitAllAppendFree(pre + [std] + shim + [loc], [""]);
  }

  lemma SplitTail(head: seq<string>, decl: string, open: seq<string>, fill: string, close: seq<string>)
    requires Free(open, '\n') && Free(close, '\n')
    ensures SplitAll(head + [decl] + open + [fill] + close, '\n') ==
      SplitAll(head, '\n') + Split(decl, '\n') + open + Split(fill, '\n') + close
  {
    SplitAllAppendOne(head, decl);
    SplitAllAppendFree(head + [decl], open);
    SplitAllAppendOne(head + [decl] + open, fill);
    SplitAllAppendFree(head + [decl] + open + [fill], close);
  }

  /** Splitting the joined template lines splits each filled-in field in place. */
  lemma SplitTemplate(pre: seq<string>, std: string, shim: seq<string>, loc: string, decl: string,
                      open: seq<string>, fill: string, close: seq<string>)
    requires Free(pre, '\n') && Free(shim, '\n') && Free(open, '\n') && Free(close, '\n')
    ensures SplitAll(pre + [std] + shim + [loc] + [""] + [decl] + open + [fill] + close, '\n') ==
      pre + Split(std, '\n') + shim + Split(loc, '\n') + [""] + Split(decl, '\n') + open + Split(fill, '\n') + close
  {
    SplitHead(pre, std, shim, loc);
    SplitTail(pre + [std] + shim + [loc] + [""], decl, open, fill, close);
  }

  /**
   * Reading the rendered document line by line gives the template's fixed
   * lines, one line per standard header, one per local header, one
   * declaration per symbol and one fill statement per symbol, each block in
   * its input order.
   */
  lemma RenderLines(filename: string, headers: seq<string>, standardIncludes: seq<string>,
                    symbols: seq<DebugSymbol>)
    requires SingleLineInputs(filename, headers, standardIncludes, symbols)
    ensures Split(RenderSymbolsFile(filename, headers, standardIncludes, symbols), '\n') ==
      DocumentLines(filename, headers, standardIncludes, symbols)
  {
    var std := StandardIncludeLines(standardIncludes);
    var loc := LocalIncludeLines(headers);
    var decl := DeclareLines(symbols);
    var fill := FillLines(symbols);
    var stdB, locB, declB, fillB := Join(std, '\n'), Join(loc, '\n'), Join(decl, '\n'), Join(fill, '\n');
    FixedLinesFree(filename);
    ItemsFree(headers, standardIncludes, symbols);
    BlockLines(std);
    BlockLines(loc);
    BlockLines(decl);
    BlockLines(fill);
    var lines := TemplateLines(filename, stdB, locB, declB, fillB);
    SplitJoin(lines, '\n');
    SplitTemplate(Preamble(filename), stdB, PrivateShim, locB, declB, OpenInit, fillB, CloseInit);
  }

  lemma SplitAllSingle(s: string)
    ensures SplitAll([s], '\n') == Split(s, '\n')
  {
    assert SplitAll([s], '\n') == Split(s, '\n') + SplitAll([], '\n');
  }
  /** Index of the first local include line, after the block `std` of standard include lines. */
  function LocalBlockStart(std: seq<string>): nat
  {
    // seven preamble lines and five lines of the private shim
    7 + |Block(std)| + 5
  }

  /** Index of the first declaration line, after the blocks `std` and `loc` and one empty line. */
  function DeclareBlockStart(std: seq<string>, loc: seq<string>): nat
  {
    LocalBlockStart(std) + |Block(loc)| + 1
  }

  /** Index of the first fill line, after the blocks `std`, `loc` and `decl`. */
  function FillBlockStart(std: seq<string>, loc: seq<string>, decl: seq<string>): nat
  {
    // four lines open the namespace and `GenDebugSymbol`
    DeclareBlockStart(std, loc) + |Block(decl)| + 4
  }

  /** Index of the first local include line in the document's lines. */
  function LocalIncludesStart(standardIncludes: seq<string>): nat
  {
    LocalBlockStart(StandardIncludeLines(standardIncludes))
  }

  /** Index of the first declaration line in the document's lines. */
  function DeclarationsStart(headers: seq<string>, standardIncludes: seq<string>): nat
  {
    DeclareBlockStart(StandardIncludeLines(standardIncludes), LocalIncludeLines(headers))
  }

  /** Index of the first fill line in the document's lines. */
  function FillsStart(headers: seq<string>, standardIncludes: seq<string>, symbols: seq<DebugSymbol>): nat
  {
    FillBlockStart(StandardIncludeLines(standardIncludes), LocalIncludeLines(headers), DeclareLines(symbols))
  }

  lemma Middle(a: seq<string>, b: seq<string>, c: seq<string>)
    ensures (a + b + c)[|a|..|a| + |b|] == b
  {
  }

  /** A prefix of `a` stays a prefix once more lines follow. */
  lemma PrefixExtend(p: seq<string>, a: seq<string>, b: seq<string>)
    requires |p| <= |a| && a[..|p|] == p
    ensures |p| <= |a + b| && (a + b)[..|p|] == p
  {
    assert (a + b)[..|p|] == a[..|p|];
  }

  /** Inside a prefix, `s` agrees with it slice by slice and line by line. */
  lemma WithinPrefix(p: seq<string>, s: seq<string>, i: nat, j: nat)
    requires |p| <= |s| && s[..|p|] == p && i <= j <= |p|
    ensures s[i..j] == p[i..j]
    ensures i < |p| ==> s[i] == p[i]
  {
    forall k | i <= k < j
      ensures s[k] == p[k]
    {
      assert s[..|p|][k] == s[k];
    }
    if i < |p| {
      assert s[..|p|][i] == s[i];
    }
    assert s[i..j] == p[i..j];
  }

  /** The first part of the document: preamble, standard includes, the private shim, the local includes. */
  lemma HeadStructure(pre: seq<string>, std: seq<string>, shim: seq<string>, loc: seq<string>,
                      stdLines: seq<string>, locLines: seq<string>)
    requires |pre| == 7 && |shim| == 5
    requires std == Block(stdLines) && loc == Block(locLines)
    ensures var h := pre + std + shim + loc;
      var l := |pre| + |std| + |shim|;
      |h| == l + |loc| &&
      h[7..7 + |stdLines|] == stdLines && h[l - 2] == shim[3] && h[l..l + |locLines|] == locLines
  {
    var h := pre + std + shim + loc;
    var ps := pre + std;
    var l := |pre| + |std| + |shim|;
    assert ps[7..7 + |stdLines|] == stdLines by {
      assert ps[7..7 + |std|] == std;
    }
    PrefixExtend(ps, ps, shim);
    PrefixExtend(ps, ps + shim, loc);
    WithinPrefix(ps, h, 7, 7 + |stdLines|);
    assert h[l - 2] == (ps + shim)[l - 2];
    assert h == (ps + shim) + loc && |ps + shim| == l;
    assert h[l..l + |locLines|] == locLines by {
      assert h[l..l + |loc|] == loc;
    }
  }

  /** The last part of the document: the declarations, the opening of `GenDebugSymbol`, the fills, the closing. */
  lemma TailStructure(head: seq<string>, decl: seq<string>, open: seq<string>, fill: seq<string>, close: seq<string>)
    requires |open| == 4 && |close| == 7 && |fill| > 0
    ensures var lines := head + decl + open + fill + close;
      var f := |head| + |decl| + |open|;
      lines[|head|..|head| + |decl|] == decl &&
      lines[f - 1] == open[3] && lines[f..f + |fill|] == fill && lines[f + |fill|] == close[0]
  {
    var lines := head + decl + open + fill + close;
    assert lines == head + decl + (open + fill + close);
    Middle(head, decl, open + fill + close);
    Middle(head + decl + open, fill, close);
  }

  /**
   * The layout a consumer of the generated file relies on, for a document
   * read as `lines`: the standard includes come first, in the given (sorted)
   * order, before private is redefined; the local includes follow in the
   * given order; then one declaration per symbol in table order; then, inside
   * `GenDebugSymbol` and before its `return 1;`, one fill statement per symbol
   * in table order. An empty fill block still leaves its one empty line
   * before `return 1;`.
   */
  predicate HasSymbolFileLayout(lines: seq<string>, headers: seq<string>, standardIncludes: seq<string>,
                                symbols: seq<DebugSymbol>)
  {
    BlocksAt(lines, StandardIncludeLines(standardIncludes), LocalIncludeLines(headers),
             DeclareLines(symbols), FillLines(symbols))
  }

  /**
   * The four blocks of items sit in `lines` where the template puts them,
   * each between the fixed lines that surround it in the template.
   */
  predicate BlocksAt(lines: seq<string>, std: seq<string>, loc: seq<string>, decl: seq<string>, fill: seq<string>)
  {
    var l := LocalBlockStart(std);
    var d := DeclareBlockStart(std, loc);
    var f := FillBlockStart(std, loc, decl);
    var r := f + |Block(fill)|;
    7 + |std| < l && l + |loc| < d && d + |decl| < f && r < |lines| &&
    lines[7..7 + |std|] == std &&
    lines[l - 2] == PrivateShim[3] &&
    lines[l..l + |loc|] == loc &&
    lines[d..d + |decl|] == decl &&
    lines[f - 1] == OpenInit[3] &&
    lines[f..f + |fill|] == fill &&
    lines[r] == CloseInit[0]
  }

  /** The items of a block are the first lines of the block. */
  lemma BlockSlice(lines: seq<string>, a: nat, items: seq<string>)
    requires a + |Block(items)| <= |lines| && lines[a..a + |Block(items)|] == Block(items)
    ensures lines[a..a + |items|] == items
  {
    var b := Block(items);
    assert lines[a..a + |items|] == lines[a..a + |b|][..|items|];
    assert b[..|items|] == items;
  }

  lemma GenericLayout(pre: seq<string>, std: seq<string>, shim: seq<string>, loc: seq<string>,
                      decl: seq<string>, open: seq<string>, fill: seq<string>, close: seq<string>,
                      stdLines: seq<string>, locLines: seq<string>, declLines: seq<string>, fillLines: seq<string>)
    requires |pre| == 7 && |shim| == 5 && |open| == 4 && |close| == 7
    requires std == Block(stdLines) && loc == Block(locLines)
    requires decl == Block(declLines) && fill == Block(fillLines)
    ensures var lines := pre + std + shim + loc + [""] + decl + open + fill + close;
      var l := 7 + |std| + 5;
      var d := l + |loc| + 1;
      var f := d + |decl| + 4;
      f + |fill| < |lines| &&
      lines[7..7 + |stdLines|] == stdLines && lines[l - 2] == shim[3] && lines[l..l + |locLines|] == locLines &&
      lines[d..d + |declLines|] == declLines && lines[f - 1] == open[3] && lines[f..f + |fillLines|] == fillLines &&
      lines[f + |fill|] == close[0]
  {
    var h := pre + std + shim + loc;
    var head := h + [""];
    var lines := head + decl + open + fill + close;
    var l := 7 + |std| + 5;
    var f := |head| + |decl| + |open|;
    HeadStructure(pre, std, shim, loc, stdLines, locLines);
    PrefixExtend(h, h, [""]);
    PrefixExtend(h, head, decl);
    PrefixExtend(h, head + decl, open);
    PrefixExtend(h, head + decl + open, fill);
    PrefixExtend(h, head + decl + open + fill, close);
    WithinPrefix(h, lines, 7, 7 + |stdLines|);
    WithinPrefix(h, lines, l - 2, l - 2);
    WithinPrefix(h, lines, l, l + |locLines|);
    TailStructure(head, decl, open, fill, close);
    BlockSlice(lines, |head|, declLines);
    BlockSlice(lines, f, fillLines);
  }

  /** The sizes of the template's fixed parts and of the filled-in blocks. */
  lemma TemplateSizes(filename: string)
    ensures |Preamble(filename)| == 7 && |PrivateShim| == 5 && |OpenInit| == 4 && |CloseInit| == 7
  {
  }

  /** The template's lines around any four blocks of items put each block where `BlocksAt` expects it. */
  lemma TemplateBlocksAt(filename: string, std: seq<string>, loc: seq<string>, decl: seq<string>, fill: seq<string>)
    ensures BlocksAt(Preamble(filename) + Block(std) + PrivateShim + Block(loc) + [""] + Block(decl) +
                     OpenInit + Block(fill) + CloseInit, std, loc, decl, fill)
  {
    TemplateSizes(filename);
    GenericLayout(Preamble(filename), Block(std), PrivateShim, Block(loc), Block(decl), OpenInit, Block(fill),
                  CloseInit, std, loc, decl, fill);
  }

  lemma DocumentLayout(filename: string, headers: seq<string>, standardIncludes: seq<string>,
                       symbols: seq<DebugSymbol>)
    ensures HasSymbolFileLayout(DocumentLines(filename, headers, standardIncludes, symbols), headers, standardIncludes, symbols)
  {
    TemplateBlocksAt(filename, StandardIncludeLines(standardIncludes), LocalIncludeLines(headers),
                     DeclareLines(symbols), FillLines(symbols));
  }

  /** The rendered document, read line by line, has the layout consumers rely on. */
  lemma RenderLayout(filename: string, headers: seq<string>, standardIncludes: seq<string>,
                     symbols: seq<DebugSymbol>)
    requires SingleLineInputs(filename, headers, standardIncludes, symbols)
    ensures HasSymbolFileLayout(Split(RenderSymbolsFile(filename, headers, standardIncludes, symbols), '\n'),
                                headers, standardIncludes, symbols)
  {
    RenderLines(filename, headers, standardIncludes, symbols);
    DocumentLayout(filename, headers, standardIncludes, symbols);
  }

  /** Two one-line blocks around the four lines that open `GenDebugSymbol`. */
  lemma EmptyBlocks(h: seq<string>, open: seq<string>, close: seq<string>)
    requires |open| == 4 && |close| > 0
    ensures var lines := h + [""] + open + [""] + close;
      |h| + 5 < |lines| && lines[|h|] == "" && lines[|h| + 5] == "" && lines[|h| + 6] == close[0]
  {
  }

  /** An empty table still renders: its declaration and fill blocks are each one empty line. */
  lemma EmptyTableLayout(filename: string, headers: seq<string>, standardIncludes: seq<string>)
    requires SingleLineInputs(filename, headers, standardIncludes, [])
    ensures var lines := Split(RenderSymbolsFile(filename, headers, standardIncludes, []), '\n');
      var d := DeclarationsStart(headers, standardIncludes);
      d + 6 < |lines| && lines[d] == "" && lines[d + 5] == "" && lines[d + 6] == CloseInit[0]
  {
    RenderLines(filename, headers, standardIncludes, []);
    var h := Preamble(filename) + Block(StandardIncludeLines(standardIncludes)) + PrivateShim +
      Block(LocalIncludeLines(headers)) + [""];
    assert |Preamble(filename)| == 7 && |PrivateShim| == 5 && |OpenInit| == 4;
    assert |h| == DeclarationsStart(headers, standardIncludes);
    assert Block(DeclareLines([])) == [""] && Block(FillLines([])) == [""];
    assert DocumentLines(filename, headers, standardIncludes, []) == h + [""] + OpenInit + [""] + CloseInit;
    EmptyBlocks(h, OpenInit, CloseInit);
  }

  /** A symbol `foo_offset` of type `size_t` whose expression needs `bar.h`. */
  const FooOffset: DebugSymbol := NewDebugSymbol("foo_offset", "offsetof(Bar, baz_)", Some(["bar.h"]), Some("size_t"))

  lemma FooOffsetFields()
    ensures FooOffset == DebugSymbol("foo_offset", "offsetof(Bar, baz_)", ["bar.h"], "size_t")
  {
  }

  lemma FooOffsetLines()
    ensures SingleLine(FooOffset)
    ensures DeclareLines([FooOffset]) == ["size_t nodedbg_foo_offset;"]
    ensures FillLines([FooOffset]) == ["nodedbg_foo_offset = offsetof(Bar, baz_);"]
  {
    FooOffsetFields();
    FooOffsetDeclare();
    FooOffsetFill();
    assert DeclareLines([FooOffset])[0] == Declare(FooOffset);
    assert FillLines([FooOffset])[0] == Fill(FooOffset);
  }

  lemma FooOffsetDeclare()
    ensures Declare(DebugSymbol("foo_offset", "offsetof(Bar, baz_)", ["bar.h"], "size_t")) == "size_t nodedbg_foo_offset;"
  {
  }

  lemma FooOffsetFill()
    ensures Fill(DebugSymbol("foo_offset", "offsetof(Bar, baz_)", ["bar.h"], "size_t")) ==
      "nodedbg_foo_offset = offsetof(Bar, baz_);"
  {
    FillShape(DebugSymbol("foo_offset", "offsetof(Bar, baz_)", ["bar.h"], "size_t"));
    assert Prefix + "foo_offset" + " = " == "nodedbg_foo_offset = ";
    assert "offsetof(Bar, baz_)" + ";" == "offsetof(Bar, baz_);";
    assert "nodedbg_foo_offset = " + "offsetof(Bar, baz_);" == "nodedbg_foo_offset = offsetof(Bar, baz_);";
  }

  /** The fill line as the prefixed name with ` = `, then the value with its `;`. */
  lemma FillShape(s: DebugSymbol)
    ensures Fill(s) == (Prefix + s.name + " = ") + (s.value + ";")
  {
  }

  lemma FooOffsetHeaders()
    ensures Dedup(AllHeaders([FooOffset])) == ["bar.h"]
    ensures LocalIncludeLines(["bar.h"]) == ["#include \"bar.h\""]
  {
    var symbols := [FooOffset];
    assert symbols[1..] == [];
    assert AllHeaders(symbols) == ["bar.h"];
    assert ["bar.h"][1..] == [];
    assert LocalIncludeLines(["bar.h"])[0] == "#include \"" + "bar.h" + "\"";
    assert "#include \"" + "bar.h" + "\"" == "#include \"bar.h\"";
  }

  /** With one local header and one symbol, the include, declaration and fill sit at fixed offsets. */
  lemma SingleSymbolLayout(lines: seq<string>, headers: seq<string>, standardIncludes: seq<string>,
                           symbols: seq<DebugSymbol>)
    requires |headers| == 1 && |symbols| == 1
    requires HasSymbolFileLayout(lines, headers, standardIncludes, symbols)
    ensures var l := LocalIncludesStart(standardIncludes);
      l + 8 < |lines| && lines[l] == LocalIncludeLines(headers)[0] &&
      lines[l + 2] == DeclareLines(symbols)[0] && lines[l + 7] == FillLines(symbols)[0]
  {
    var l := LocalIncludesStart(standardIncludes);
    assert |Block(LocalIncludeLines(headers))| == 1 && |Block(DeclareLines(symbols))| == 1;
    assert DeclarationsStart(headers, standardIncludes) == l + 2;
    assert FillsStart(headers, standardIncludes, symbols) == l + 7;
    assert lines[l] == lines[l..l + 1][0];
    assert lines[l + 2] == lines[l + 2..l + 3][0];
    assert lines[l + 7] == lines[l + 7..l + 8][0];
  }

  /**
   * A one-symbol table `foo_offset` of type `size_t` needing `bar.h`: the
   * document holds the local include, the declaration and the fill
   * statement, in that order.
   */
  lemma FooOffsetScenario(filename: string, standardIncludes: seq<string>)
    requires '\n' !in filename
    requires forall i :: 0 <= i < |standardIncludes| ==> '\n' !in standardIncludes[i]
    ensures var headers := Dedup(AllHeaders([FooOffset]));
      var lines := Split(RenderSymbolsFile(filename, headers, standardIncludes, [FooOffset]), '\n');
      var l := LocalIncludesStart(standardIncludes);
      headers == ["bar.h"] &&
      l + 8 < |lines| &&
      lines[l] == "#include \"bar.h\"" &&
      lines[l + 2] == "size_t nodedbg_foo_offset;" &&
      lines[l + 7] == "nodedbg_foo_offset = offsetof(Bar, baz_);"
  {
    FooOffsetLines();
    FooOffsetHeaders();
    var headers := ["bar.h"];
    RenderLayout(filename, headers, standardIncludes, [FooOffset]);
    var lines := Split(RenderSymbolsFile(filename, headers, standardIncludes, [FooOffset]), '\n');
    SingleSymbolLayout(lines, headers, standardIncludes, [FooOffset]);
  }

  /**
   * `create_symbols_file` up to the write: aggregates the local headers,
   * scans the header files for standard includes and renders the template.
   * `argv0` is the generator's path as invoked; `headerFiles` holds the
   * lines of every `*.h` file under the two source trees.
   */
  method CreateSymbolsFile(argv0: string, headerFiles: seq<seq<string>>, symbols: seq<DebugSymbol>)
    returns (document: string)
    ensures exists standardIncludes ::
      (IsStandardIncludeList(standardIncludes, headerFiles) &&
       document == RenderSymbolsFile(argv0, Dedup(AllHeaders(symbols)), standardIncludes, symbols))
  {
    var headers := GetHeaders(symbols);
    var standardIncludes := GetStandardIncludes(headerFiles);
    document := RenderSymbolsFile(argv0, headers, standardIncludes, symbols);
  }

  /**
   * The run is reproducible: the same symbol table and the same header files,
   * walked in any order, give the same document.
   */
  lemma CreateSymbolsFileDeterministic(argv0: string, files1: seq<seq<string>>, files2: seq<seq<string>>,
                                       symbols: seq<DebugSymbol>, std1: seq<string>, std2: seq<string>)
    requires forall f :: f in files1 <==> f in files2
    requires IsStandardIncludeList(std1, files1) && IsStandardIncludeList(std2, files2)
    ensures RenderSymbolsFile(argv0, Dedup(AllHeaders(symbols)), std1, symbols) ==
            RenderSymbolsFile(argv0, Dedup(AllHeaders(symbols)), std2, symbols)
  {
    StandardIncludesDeterministic(files1, files2, std1, std2);
  }

  /**
   * The whole run, line by line: for a table whose fields and header names hold
   * no line breaks, the document `create_symbols_file` writes has the template's
   * layout, with the aggregated local headers and the scanned standard headers.
   */
  lemma SymbolsFileLayout(argv0: string, headerFiles: seq<seq<string>>, symbols: seq<DebugSymbol>,
                          standardIncludes: seq<string>)
    requires '\n' !in argv0
    requires forall k :: 0 <= k < |symbols| ==> SingleLine(symbols[k])
    requires forall k, j :: 0 <= k < |symbols| && 0 <= j < |symbols[k].headers| ==> '\n' !in symbols[k].headers[j]
    requires IsStandardIncludeList(standardIncludes, headerFiles)
    ensures var headers := Dedup(AllHeaders(symbols));
      HasSymbolFileLayout(Split(RenderSymbolsFile(argv0, headers, standardIncludes, symbols), '\n'),
                          headers, standardIncludes, symbols)
  {
    var all := AllHeaders(symbols);
    var headers := Dedup(all);
    DedupProperties(all);
    forall i | 0 <= i < |headers|
      ensures '\n' !in headers[i]
    {
      var h := headers[i];
      assert h in all;
      AllHeadersMembership(symbols, h);
      var k :| 0 <= k < |symbols| && h in symbols[k].headers;
      var j :| 0 <= j < |symbols[k].headers| && symbols[k].headers[j] == h;
    }
    forall i | 0 <= i < |standardIncludes|
      ensures '\n' !in standardIncludes[i]
    {
      assert standardIncludes[i] in standardIncludes;
      CapturesAreTokens(headerFiles, standardIncludes[i]);
    }
    RenderLayout(argv0, headers, standardIncludes, symbols);
  }
}
