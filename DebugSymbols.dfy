/**
 * The `DebugSymbol` record: one named constant for post-mortem debuggers, the
 * C++ expression that computes it, the headers that expression needs and its
 * type; its two rendered views (`declare` and `fill`); and the shipped table
 * of symbols.
 */
module DebugSymbols {
  import opened Wrappers
  import opened Strings

  /** Prefix that namespaces every emitted symbol (class attribute `_prefix`). */
  const Prefix: string := "nodedbg_"

  /** Type used when a symbol names none (class attribute `type_`). */
  const DefaultType: string := "int"

  /** One symbol. `value` is an opaque C++ expression copied verbatim into the output. */
  datatype DebugSymbol = DebugSymbol(name: string, value: string, headers: seq<string>, typeName: string)

  /**
   * `DebugSymbol(name, value, headers=[], type_=None)`. `headers` is None when
   * the keyword is omitted, which stands for an empty list. The type is
   * `type_ or DebugSymbol.type_`, so both a missing type and the empty string
   * (which Python treats as false) fall back to the default.
   */
  function NewDebugSymbol(name: string, value: string, headers: Option<seq<string>>, typeName: Option<string>): (s: DebugSymbol)
    ensures s.name == name && s.value == value
    ensures s.headers == (if headers.Some? then headers.value else [])
    ensures s.typeName != ""
    ensures typeName.Some? && typeName.value != "" ==> s.typeName == typeName.value
    ensures typeName.None? || typeName.value == "" ==> s.typeName == DefaultType
  {
    var t := if typeName.Some? && typeName.value != "" then typeName.value else DefaultType;
    DebugSymbol(name, value, if headers.Some? then headers.value else [], t)
  }

  /** The `declare` property: `<type> nodedbg_<name>;`. */
  function Declare(s: DebugSymbol): string
  {
    s.typeName + " " + Prefix + s.name + ";"
  }

  /** The `fill` property: `nodedbg_<name> = <value>;`. */
  function Fill(s: DebugSymbol): string
  {
    Prefix + s.name + " = " + s.value + ";"
  }

  /**
   * Reads a declaration line back into its type and unprefixed name: the type
   * runs to the first space, the prefixed name from there to the final ';'.
   */
  function ParseDeclaration(line: string): Option<(string, string)>
  {
    if ' ' !in line then None
    else
      var i := FirstIndex(line, ' ');
      var rest := line[i + 1..];
      if |rest| > |Prefix| && rest[..|Prefix|] == Prefix && rest[|rest| - 1] == ';'
      then Some((line[..i], rest[|Prefix|..|rest| - 1]))
      else None
  }

  /**
   * Reads a fill line back into its unprefixed name and value expression: the
   * prefixed name runs to the first space, followed by " = ", the value and a
   * final ';'.
   */
  function ParseFill(line: string): Option<(string, string)>
  {
    if |line| < |Prefix| || line[..|Prefix|] != Prefix then None
    else
      var body := line[|Prefix|..];
      if ' ' !in body then None
      else
        var i := FirstIndex(body, ' ');
        var rest := body[i..];
        if |rest| >= 4 && rest[..3] == " = " && rest[|rest| - 1] == ';'
        then Some((body[..i], rest[3..|rest| - 1]))
        else None
  }

  /** A line `<word> <tail>`: the first space follows the word. */
  lemma SpaceSplit(word: string, tail: string)
    requires ' ' !in word
    ensures var line := word + [' '] + tail;
      ' ' in line && FirstIndex(line, ' ') == |word| && line[..|word|] == word && line[|word| + 1..] == tail
  {
    var line := word + [' '] + tail;
    FirstIndexAfter(word, ' ', tail);
    assert line[..|word|] == word;
    assert line[|word| + 1..] == tail;
  }

  /** `nodedbg_<name>;` splits back into the prefix, the name and the `;`. */
  lemma PrefixedNameSplit(name: string)
    ensures var tail := Prefix + name + ";";
      |tail| > |Prefix| && tail[..|Prefix|] == Prefix && tail[|tail| - 1] == ';' &&
      tail[|Prefix|..|tail| - 1] == name
  {
    var tail := Prefix + name + ";";
    assert tail[..|Prefix|] == Prefix;
    assert tail[|Prefix|..|tail| - 1] == name;
  }

  /** The declaration names the symbol's type and name, recoverable whenever the type is one word. */
  lemma DeclareRoundTrip(s: DebugSymbol)
    requires ' ' !in s.typeName
    ensures ParseDeclaration(Declare(s)) == Some((s.typeName, s.name))
  {
    var tail := Prefix + s.name + ";";
    assert Declare(s) == s.typeName + [' '] + tail;
    SpaceSplit(s.typeName, tail);
    PrefixedNameSplit(s.name);
  }

  /** ` = <value>;` splits back into the ` = `, the value and the `;`. */
  lemma AssignedValueSplit(value: string)
    ensures var rest := " = " + value + ";";
      |rest| >= 4 && rest[..3] == " = " && rest[|rest| - 1] == ';' && rest[3..|rest| - 1] == value
  {
    var rest := " = " + value + ";";
    assert rest[..3] == " = ";
    assert rest[3..|rest| - 1] == value;
  }

  /** A prefixed line splits back into the prefix and what follows it. */
  lemma PrefixSplit(t: string)
    ensures var line := Prefix + t; |line| >= |Prefix| && line[..|Prefix|] == Prefix && line[|Prefix|..] == t
  {
    var line := Prefix + t;
    assert line[..|Prefix|] == Prefix;
    assert line[|Prefix|..] == t;
  }

  /** The fill statement assigns the value expression, copied verbatim, to the prefixed name. */
  lemma FillRoundTrip(s: DebugSymbol)
    requires ' ' !in s.name
    ensures ParseFill(Fill(s)) == Some((s.name, s.value))
  {
    var rest := " = " + s.value + ";";
    var body := s.name + rest;
    assert Fill(s) == Prefix + body;
    PrefixSplit(body);
    assert body == s.name + [' '] + rest[1..];
    SpaceSplit(s.name, rest[1..]);
    assert body[|s.name|..] == rest;
    AssignedValueSplit(s.value);
  }

  /** Symbols with one-word types and distinct names or types are declared by distinct lines. */
  lemma DeclareInjective(a: DebugSymbol, b: DebugSymbol)
    requires ' ' !in a.typeName && ' ' !in b.typeName
    requires Declare(a) == Declare(b)
    ensures a.typeName == b.typeName && a.name == b.name
  {
    DeclareRoundTrip(a);
    DeclareRoundTrip(b);
  }

  /** The local headers the shipped symbols' expressions need. */
  const EnvHeader: string := "env.h"
  const BaseObjectHeader: string := "base_object-inl.h"
  const HandleWrapHeader: string := "handle_wrap.h"
  const UtilHeader: string := "util.h"
  const ReqWrapHeader: string := "req_wrap.h"

  /** The shipped `debug_symbols` table, in its declared order. */
  const DebugSymbolsTable: seq<DebugSymbol> := [
    NewDebugSymbol("environment_context_idx_embedder_data",
      "Environment::kContextEmbedderDataIndex", Some([EnvHeader]), Some("int")),
    NewDebugSymbol("class__BaseObject__persistent_handle",
      "offsetof(BaseObject, persistent_handle_)", Some([BaseObjectHeader]), Some("size_t")),
    NewDebugSymbol("class__Environment__handleWrapQueue",
      "offsetof(Environment, handle_wrap_queue_)", Some([EnvHeader]), Some("size_t")),
    NewDebugSymbol("class__HandleWrap__node",
      "offsetof(HandleWrap, handle_wrap_queue_)", Some([HandleWrapHeader]), Some("size_t")),
    NewDebugSymbol("class__HandleWrapQueue__headOffset",
      "offsetof(Environment::HandleWrapQueue, head_)", Some([EnvHeader]), Some("size_t")),
    NewDebugSymbol("class__HandleWrapQueue__nextOffset",
      "offsetof(ListNode<HandleWrap>, next_)", Some([HandleWrapHeader, UtilHeader]), Some("size_t")),
    NewDebugSymbol("class__Environment__reqWrapQueue",
      "offsetof(Environment, req_wrap_queue_)", Some([EnvHeader]), Some("size_t")),
    NewDebugSymbol("class__ReqWrap__node",
      "offsetof(ReqWrap<uv_req_t>, req_wrap_queue_)", Some([ReqWrapHeader]), Some("size_t")),
    NewDebugSymbol("class__ReqWrapQueue__headOffset",
      "offsetof(Environment::ReqWrapQueue, head_)", Some([EnvHeader]), Some("size_t")),
    NewDebugSymbol("class__ReqWrapQueue__nextOffset",
      "offsetof(ListNode<ReqWrap<uv_req_t>>, next_)", Some([ReqWrapHeader, UtilHeader]), Some("size_t"))
  ]

  /** A symbol whose fields hold no line break, so its declaration and its fill each take one line. */
  predicate SingleLine(s: DebugSymbol)
  {
    '\n' !in s.typeName && '\n' !in s.name && '\n' !in s.value
  }

  /** The shipped table: ten symbols of one-word types, no two sharing a name. */
  lemma ShippedTableNames()
    ensures |DebugSymbolsTable| == 10
    ensures forall i :: 0 <= i < |DebugSymbolsTable| ==> DebugSymbolsTable[i].typeName in {"int", "size_t"}
    ensures forall i, j :: 0 <= i < j < |DebugSymbolsTable| ==> DebugSymbolsTable[i].name != DebugSymbolsTable[j].name
  {
  }

  /** A symbol built without a type, or with an empty one, is declared as an `int`. */
  lemma DefaultTypeDeclaration(name: string, value: string)
    ensures Declare(NewDebugSymbol(name, value, None, None)) == "int nodedbg_" + name + ";"
    ensures Declare(NewDebugSymbol(name, value, None, Some(""))) == "int nodedbg_" + name + ";"
  {
  }
}
