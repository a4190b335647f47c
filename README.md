# Post-mortem debug symbol generator, modelled in Dafny

`tools/gen-postmortem-metadata.py` writes a C++ translation unit that embeds
named constants (`nodedbg_*`) for post-mortem debuggers: offsets of fields
inside Node's internal structures and a few index values. The debuggers read
these symbols from a core dump instead of relying on debug info. This project
models the generator's core and proves its guarantees.

- `DebugSymbols.dfy`: the `DebugSymbol` record, its constructor with the `int`
  default type, and its `declare` and `fill` views. Each view comes with a
  parser that reads the line back. The module also holds the shipped
  `debug_symbols` table.
- `HeaderAggregator.dfy`: `get_headers`. It is a loop over a `seen` set and a
  `result` list, proved against a first-occurrence deduplication function.
- `IncludeScanner.dfy`: a hand-written matcher for the single pattern
  `#include *<([a-zA-Z0-9\-_]*)>` (anchored at the start of the line). It
  also covers the nested scanning loops of `get_standard_includes` and the
  final `sorted(...)`.
- `Emitter.dfy`: `create_symbols_file`. It is a pure function from the
  generator's path, the local headers, the standard headers and the symbol
  table to the rendered text. Beside it is a method that runs the whole
  pipeline.
- `Strings.dfy`: `'\n'.join` and its inverse `split`, plus Python 2's byte-string
  ordering and the uniqueness of a strictly sorted list.
- `Wrappers.dfy`: `Option`.

The template is written as a list of its lines. Joining them with `'\n'` gives
exactly the template's text. `str.format` inserts every field verbatim, so
joining the lines with the fields in place gives exactly the formatted
document.

The scan reads every `*.h` file under `src` and `deps` and never follows
includes. Duplicate symbol names are not rejected; the shipped table's names
are proved distinct (`DebugSymbols.ShippedTableNames`).

## Model

| member | source | states |
|---|---|---|
| `DebugSymbols.NewDebugSymbol` | tools/gen-postmortem-metadata.py:17-25 | Name, value and headers are stored as given. An omitted header list is empty. The type is never empty: a missing or empty type falls back to `int`, and any other type is kept. |
| `DebugSymbols.DefaultTypeDeclaration` | tools/gen-postmortem-metadata.py:18-51 | A symbol built without a type, or with an empty one, is declared as `int nodedbg_<name>;`. |
| `DebugSymbols.Declare` | tools/gen-postmortem-metadata.py:45-51 | The `declare` property. Its contract is `DeclareRoundTrip`: for a one-word type the line reads back as `<type> nodedbg_<name>;`. |
| `DebugSymbols.Fill` | tools/gen-postmortem-metadata.py:53-59 | The `fill` property. Its contract is `FillRoundTrip`: for a name without spaces the line reads back as `nodedbg_<name> = <value>;`, with the value verbatim. |
| `DebugSymbols.DeclareRoundTrip` | tools/gen-postmortem-metadata.py:45-51 | The declaration line reads back as the symbol's type and unprefixed name, provided the type is one word. So the line is `<type> nodedbg_<name>;`. |
| `DebugSymbols.FillRoundTrip` | tools/gen-postmortem-metadata.py:53-59 | The fill line reads back as the symbol's name and value, provided the name has no space. So the line is `nodedbg_<name> = <value>;` with the value copied verbatim. |
| `DebugSymbols.DeclareInjective` | tools/gen-postmortem-metadata.py:45-51 | Two symbols with one-word types get the same declaration line only if they have the same type and name. |
| `DebugSymbols.DebugSymbolsTable` | tools/gen-postmortem-metadata.py:60-123 | The ten shipped symbols in table order, with names, values, header lists and types as written. Its properties are `ShippedTableNames`, `ShippedAllHeaders` and `ShippedHeaders`. |
| `DebugSymbols.ShippedTableNames` | tools/gen-postmortem-metadata.py:62-123 | The shipped table has ten symbols. Every type is `int` or `size_t`, and no two symbols share a name. |
| `HeaderAggregator.AllHeaders` | tools/gen-postmortem-metadata.py:34-35 | `sum([s.headers for s in symbols], [])`. Its contract is `AllHeadersMembership`: a header is in it exactly when some symbol lists it. |
| `HeaderAggregator.Dedup` | tools/gen-postmortem-metadata.py:37-41 | First-occurrence deduplication. Its contract is `DedupProperties`: no duplicates, the same elements, and first-use order in both directions. |
| `HeaderAggregator.AllHeadersMembership` | tools/gen-postmortem-metadata.py:34-35 | A header is in the flattened list exactly when some symbol's `headers` list contains it. |
| `HeaderAggregator.DedupFromContents` | tools/gen-postmortem-metadata.py:37-41 | Deduplicating after a `seen` set never yields a header twice. It yields exactly the input headers that are not in `seen`. |
| `HeaderAggregator.DedupFromOrder` | tools/gen-postmortem-metadata.py:37-41 | Deduplication keeps the order of first occurrences in the input. |
| `HeaderAggregator.DedupProperties` | tools/gen-postmortem-metadata.py:28-43 | The deduplicated list has no duplicates and the same elements as its input. First occurrences in the input strictly increase along it (`FirstUseOrder`). So one header comes before another exactly when its first occurrence in the input comes first. |
| `HeaderAggregator.GetHeaders` | tools/gen-postmortem-metadata.py:27-43 | The `seen`/`result` loop returns the first-occurrence deduplication of the flattened headers. The result has no duplicates and holds exactly the headers some symbol lists. Its order matches first use across the table, in both directions. |
| `HeaderAggregator.DedupExample` | tools/gen-postmortem-metadata.py:33-41 | Header lists `[a, b]`, `[b, c]` and `[a]` aggregate to `[a, b, c]`. |
| `HeaderAggregator.ShippedAllHeaders` | tools/gen-postmortem-metadata.py:62-123 | Flattening the shipped table's header lists gives twelve entries in table order. |
| `HeaderAggregator.ShippedDedup` | tools/gen-postmortem-metadata.py:37-41 | For any five distinct names, the shipped header sequence deduplicates to those five names in first-use order. |
| `HeaderAggregator.ShippedHeaders` | tools/gen-postmortem-metadata.py:62-123 | On the shipped table, the local headers are exactly `env.h`, `base_object-inl.h`, `handle_wrap.h`, `util.h`, `req_wrap.h`. |
| `IncludeScanner.MatchInclude` | tools/gen-postmortem-metadata.py:161-169 | `regex.match(line)` and `match.group(1)` for the fixed pattern. Its contract is `MatchIncludeIff`: a line captures `t` exactly when `t` is a token and the line is `#include`, spaces, `<t>`, then anything. |
| `IncludeScanner.MatchIncludeComplete` | tools/gen-postmortem-metadata.py:161-167 | A line that starts with `#include`, then any number of spaces, then `<token>` with token characters from `[A-Za-z0-9_-]`, captures the token. Text after the `>` does not matter. |
| `IncludeScanner.MatchIncludeSound` | tools/gen-postmortem-metadata.py:161-167 | Every capture is made of token characters. The line that produced it has exactly that shape. |
| `IncludeScanner.MatchIncludeIff` | tools/gen-postmortem-metadata.py:161-169 | A line captures `t` if and only if `t` is a token and the line is `#include`, spaces, `<t>` and any trailing text. |
| `IncludeScanner.IndentedRejected` | tools/gen-postmortem-metadata.py:167 | A line whose first character is not `#` never matches, because the pattern is anchored at the line start. |
| `IncludeScanner.QuotedRejected` | tools/gen-postmortem-metadata.py:161 | A quoted include such as `#include "x"` never matches, whatever the number of spaces. |
| `IncludeScanner.NonTokenCharRejected` | tools/gen-postmortem-metadata.py:161 | If a bracketed name contains a character outside the token class (such as `.` or `/`) before any `>`, the line does not match. |
| `IncludeScanner.PlainIncludeAccepted` | tools/gen-postmortem-metadata.py:161-169 | `#include <baz>` captures `baz`. |
| `IncludeScanner.UnspacedIncludeAccepted` | tools/gen-postmortem-metadata.py:161-169 | `#include<vector>` followed by a newline captures `vector`. |
| `IncludeScanner.EmptyTokenAccepted` | tools/gen-postmortem-metadata.py:161 | `#include <>` captures the empty token. |
| `IncludeScanner.DottedNameRejected` | tools/gen-postmortem-metadata.py:161 | `#include <uv.h>` does not match. |
| `IncludeScanner.IndentedExampleRejected` | tools/gen-postmortem-metadata.py:167 | `  #include <foo>` (indented) does not match. |
| `IncludeScanner.QuotedExampleRejected` | tools/gen-postmortem-metadata.py:161 | `#include "bar"` does not match. |
| `IncludeScanner.TabRejected` | tools/gen-postmortem-metadata.py:161 | A tab between `#include` and `<` prevents the match, because only spaces are allowed there. |
| `IncludeScanner.CapturesMembership` | tools/gen-postmortem-metadata.py:162-169 | A token is collected exactly when some line of some scanned file matches with that token. |
| `IncludeScanner.CapturesAreTokens` | tools/gen-postmortem-metadata.py:161-169 | Every collected name is a token, so none contains a line break. |
| `IncludeScanner.SortedList` | tools/gen-postmortem-metadata.py:170 | `sorted(includes)` is strictly increasing in byte-string order and holds exactly the set's elements. |
| `IncludeScanner.GetStandardIncludes` | tools/gen-postmortem-metadata.py:156-170 | The nested loops collect exactly the captures of all lines of all files. The returned list is strictly sorted and has no duplicates. |
| `IncludeScanner.StandardIncludesDeterministic` | tools/gen-postmortem-metadata.py:160-170 | Two file lists with the same files, in any order and any multiplicity, give the same standard include list. |
| `Strings.JoinRoundTrip` | tools/gen-postmortem-metadata.py:177 | `'\n'.join` of one or more lines without line breaks splits back into exactly those lines. An empty list joins to `""`, which reads back as one empty line (`Emitter.Block`). |
| `Strings.SortedUnique` | tools/gen-postmortem-metadata.py:170 | Two strictly sorted lists with the same elements are equal, so `sorted(set)` depends only on the set. |
| `Strings.Join` | tools/gen-postmortem-metadata.py:177-184 | `sep.join(parts)` for the one-character separator `'\n'`. Its contract is `JoinRoundTrip`: splitting undoes it for one or more lines without line breaks. |
| `Strings.Less` | tools/gen-postmortem-metadata.py:170 | Python 2 `<` on byte strings, the order `sorted` uses. Its lemmas `LessIrreflexive`, `LessTransitive`, `LessTotal` and `LessAsymmetric` make it a strict total order, which `SortedUnique` and `SortedList` rely on. |
| `Emitter.LocalIncludeLines` | tools/gen-postmortem-metadata.py:176 | One `#include "<header>"` line per local header. |
| `Emitter.StandardIncludeLines` | tools/gen-postmortem-metadata.py:180 | One `#include <header>` line per standard header. |
| `Emitter.DeclareLines` | tools/gen-postmortem-metadata.py:183 | One declaration per symbol. |
| `Emitter.FillLines` | tools/gen-postmortem-metadata.py:184 | One fill statement per symbol. |
| `Emitter.TemplateLines` | tools/gen-postmortem-metadata.py:126-153 | The `template` text, one entry per line, with the five fields substituted. It consists of `Preamble`, `PrivateShim`, `OpenInit` and `CloseInit` around the four blocks. Its contracts are `RenderLines` and `RenderLayout`, stated of the joined document. |
| `Emitter.RenderSymbolsFile` | tools/gen-postmortem-metadata.py:126-192 | `template.format(...)` with the four joined blocks. Its contracts are `RenderLines` (the line-by-line content) and `RenderLayout` (where each block sits). |
| `Emitter.RenderLines` | tools/gen-postmortem-metadata.py:126-192 | When the inputs hold no line breaks, the rendered document read line by line is: the template's fixed lines, one line per standard header, per local header, per declaration and per fill, each block in input order. An empty block leaves one empty line. Types and names may contain spaces. |
| `Emitter.RenderLayout` | tools/gen-postmortem-metadata.py:133-152 | For any table, empty or not, whose inputs hold no line breaks: the standard includes come first, in the given order, before `#define private`. The local includes follow. Then one declaration per symbol in table order. Then one fill per symbol in table order, inside `GenDebugSymbol() {` and before `return 1;`. |
| `Emitter.EmptyTableLayout` | tools/gen-postmortem-metadata.py:141-147 | An empty table still renders: the declaration block and the fill block are each one empty line, and `return 1;` follows the empty fill line. |
| `Emitter.FooOffsetScenario` | tools/gen-postmortem-metadata.py:173-192 | A table with one `size_t` symbol `foo_offset` that needs `bar.h` yields `#include "bar.h"`, then `size_t nodedbg_foo_offset;`, then `nodedbg_foo_offset = offsetof(Bar, baz_);`, in that order. |
| `Emitter.CreateSymbolsFile` | tools/gen-postmortem-metadata.py:173-192 | The document is the template rendered with the aggregated local headers, the sorted standard includes of the scanned files, and the table's declarations and fills. |
| `Emitter.CreateSymbolsFileDeterministic` | tools/gen-postmortem-metadata.py:160-192 | The same table and the same header files, walked in any order, render the same document. |
| `Emitter.SymbolsFileLayout` | tools/gen-postmortem-metadata.py:173-192 | End to end, for a table whose fields and header names hold no line breaks, the document has the template layout. The aggregated local headers and the scanned standard includes fill their blocks. The scanned names need no assumption, since every capture is a token. |

## Left out

- Directory walking (`os.walk`, `fnmatch.filter(..., '*.h')`, the fixed `src`
  and `deps` roots) and file reading. `CreateSymbolsFile` takes the lines of
  every scanned header file as a `seq<seq<string>>`, in walk order. Lines keep
  whatever line break `readlines` leaves on them.
- Writing the output file (`file(sys.argv[1], 'w')`, `out.write`). The model
  stops at the rendered string. `sys.argv[0]` becomes the `argv0` parameter.
- The argument-count check, the usage message and `sys.exit(2)`. This is
  process plumbing.
- Regular expressions in general. Only the one fixed pattern is modelled, by
  hand.
- The meaning of the C++ value expressions. They are opaque strings.
- The module-level `debug_symbols` global. The pipeline method takes the
  table as a parameter; the shipped table is `DebugSymbols.DebugSymbolsTable`.
- Python's mutable shared default `headers=[]`. Sequences are immutable
  values here, so no two symbols can share a header list.
- `Emitter.RenderLines`, `Emitter.RenderLayout`: these line-level statements
  assume the inputs contain no line breaks. With a line break in a value
  expression, the document is still exactly the template text, but its lines
  no longer correspond one-to-one to symbols. Spaces in types and names are
  allowed.
- `DebugSymbols.DeclareRoundTrip`, `DebugSymbols.FillRoundTrip`: these
  round-trips assume a one-word type and a name without spaces. The source
  does not check this, and a type such as `unsigned int` would not read back
  at the first space.
