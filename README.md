# eino-demo text and lookup routines, modelled in Dafny

The eino-demo repository wires demo programs together with the eino graph
library: a retrieval-augmented chat, a tagging graph and a tool-calling
agent. This project models the small routines the repository writes itself,
and proves properties of them:

- **Paragraph chunker** (`chunkDocuments`, module `BasicRag`). Each document
  is split on empty lines (`"\n\n"`). Blank paragraphs are skipped. Every other
  paragraph becomes a chunk document:
  - its content is the trimmed paragraph;
  - its id is `<doc id>_para_<index>`;
  - its metadata records `source` and `paragraph_index`.

  A document is left as soon as paragraph 10 has given a chunk. The method
  `ChunkDocuments` keeps the document loop. The paragraph loop, with its
  `continue` and `break`, is the method `AppendDocumentChunks`, which the
  document loop calls. Both are proved against the specification function
  `AllChunks`. The lemmas beside them characterise `AllChunks`.
- **Chat context** (`buildChatContext`). The method appends each document's
  content and an empty line to the context. It is proved against
  `ChatContext`.
- **Tag parser** (module `GraphTag`). The `parse` node of the tagging graph
  becomes a function of the tagged text and of the model's reply. It trims
  the reply, turns full-width commas `，` into `,` and splits on `,`. The
  prompt's phrase library is the phrases joined with `，`. Two round trips are
  proved: joining the tags gives back the normalised reply, and the exact
  condition under which a reply that repeats the library parses back to the
  library.
- **User lookup tool** (module `UserTool`). `search_user_info_from_db`
  answers from a fixed three-user table. It gives one of three replies:
  "name is required", the user's entry, or "user not found".

Module `GoStrings` gives the Go library functions these routines call their
Go semantics, on strings as sequences of runes:
- `unicode.IsSpace`
- `strings.TrimSpace`, `Index`, `Split`, `Join`, and `ReplaceAll` for one rune
- `fmt.Sprintf("%d")` for non-negative numbers

It also defines `CountRune`, the number of times a rune occurs in a string,
which is what `strings.Count` of one rune gives. No routine calls
`strings.Count`. `CountRune` is used only to state how many tags a parse
gives.

Its lemmas supply the split/join round trips and the counting facts used
above.

## Model

| member | source | states |
|---|---|---|
| BasicRag.ChunkDocuments | basic_rag/main.go:190-226 | the result is `AllChunks(docs)`: the chunks of every document, document after document, in input order |
| BasicRag.MakeChunkFields | basic_rag/main.go:210-217 | the chunk of paragraph `idx` carries the given text; its id is the document's id, then `_para_`, then decimal digits without leading zeros that read back as `idx`; its metadata has exactly the keys `source` and `paragraph_index`, holding the document's id and `idx` |
| BasicRag.AppendDocumentChunks | basic_rag/main.go:194-222 | one pass of the paragraph loop, with `continue` and `break`, appends exactly `DocChunks(doc)` to the chunks collected before it |
| BasicRag.BlankParagraphSkipped | basic_rag/main.go:202-207 | a paragraph whose trimmed text is empty adds no chunk, and a blank paragraph 10 leaves the scan running |
| BasicRag.ParagraphKept | basic_rag/main.go:209-218 | a non-blank paragraph, before the scan has stopped, adds the one chunk made from its trimmed text |
| BasicRag.NothingKeptAfterStop | basic_rag/main.go:219-221 | after a non-blank paragraph 10 no later paragraph adds a chunk |
| BasicRag.AllChunksStep | basic_rag/main.go:193-223 | one more document appends that document's chunks to those of the documents before it |
| BasicRag.ChunksMembership | basic_rag/main.go:200-221 | a document is among the chunks of the first `n` paragraphs iff it is the chunk of a kept paragraph below `n` |
| BasicRag.DocChunksMembership | basic_rag/main.go:197-221 | a chunk of a document is exactly `Document(id + "_para_" + decimal(i), TrimSpace(paragraph i), {source: id, paragraph_index: i})` for a kept paragraph `i`; nothing else is a chunk. So the index `i` is the paragraph's position among all paragraphs, blank ones included, and blank paragraphs leave gaps in the indices |
| BasicRag.ChunksIndices | basic_rag/main.go:200-221 | the recorded paragraph indices of the chunks are below the paragraph count and strictly increase |
| BasicRag.DocChunksIncreasing | basic_rag/main.go:200-221 | within one document, later chunks record strictly larger paragraph indices, all non-negative |
| BasicRag.DocChunkIdsDistinct | basic_rag/main.go:211 | no two chunks of one document share an id |
| BasicRag.ChunkIdNamesIndex | basic_rag/main.go:211-215 | a chunk's id is its document's id, `_para_` and the paragraph index it records |
| BasicRag.ChunkIdsDiffer | basic_rag/main.go:211 | different paragraph indices give different ids |
| BasicRag.ChunkContentNonEmpty | basic_rag/main.go:202-212 | every chunk has non-empty content and comes from one of the input documents |
| BasicRag.StopAtParagraphTen | basic_rag/main.go:219-221 | when paragraph 10 is not blank, no chunk records an index above 10 and the document gives at most 11 chunks |
| BasicRag.BlankParagraphTenDoesNotStop | basic_rag/main.go:205-221 | when paragraph 10 is blank, every later non-blank paragraph still gives its chunk |
| BasicRag.BlankDocumentNoChunks | basic_rag/main.go:197-207 | an empty or all-white-space document gives no chunks |
| BasicRag.ChunksInDocumentOrder | basic_rag/main.go:193-223 | document `k`'s chunks follow those of the documents before it and precede those after it |
| BasicRag.AllChunksAppend | basic_rag/main.go:193-223 | the chunks of two concatenated document lists are the first list's chunks followed by the second's |
| BasicRag.BuildChatContext | basic_rag/main.go:124-129 | the result is `ChatContext(docs)`: each content followed by `"\n\n"`, in order |
| BasicRag.ChatContextEmpty | basic_rag/main.go:124-129 | no documents give the empty context |
| BasicRag.ChatContextLength | basic_rag/main.go:124-129 | the context's length is the sum over the documents of the content's length plus 2 |
| BasicRag.ChatContextAppend | basic_rag/main.go:125-127 | the context of two concatenated lists is the concatenation of their contexts |
| BasicRag.ChatContextLayout | basic_rag/main.go:125-127 | document `k`'s content stands right after the context of the documents before it, followed by an empty line |
| GoStrings.TrimSpaceSlice | basic_rag/main.go:202 | what `TrimSpace` keeps is a slice of its argument with only white space before and after it |
| GoStrings.JoinSplit | graph/tag/main.go:91 | joining the pieces of a split with the separator gives back the string |
| GoStrings.SplitJoin | graph/tag/main.go:79-91 | for a non-empty list of parts, none containing the one-rune separator, splitting their join gives back the parts (an empty list joins to `""`, which splits to `[""]`) |
| GoStrings.SplitCount | graph/tag/main.go:91 | a split on one rune has one piece more than the rune's occurrences |
| GoStrings.ReplaceAllRuneCount | graph/tag/main.go:90 | after replacing `，` by `,` no `，` is left and the `,` count is the sum of both counts before |
| GoStrings.TrimPadded | graph/tag/main.go:89 | white space added on both sides of a string whose ends are not white space is exactly what `TrimSpace` removes |
| GoStrings.FormatNatInjective | basic_rag/main.go:211 | different numbers are printed as different decimal strings |
| GraphTag.LibraryTextSplits | graph/tag/main.go:79 | when no phrase contains a comma, the library text (the phrases joined with `，`) with `，` turned into `,` is the phrases joined with `,`, and for a non-empty library splitting that on `,` gives the phrases back |
| GraphTag.NormalizeCommas | graph/tag/main.go:90 | `ReplaceAll(s, "，", ",")` works rune by rune: every `，` becomes `,` and every other rune stays where it is; so the length is unchanged, no `，` is left, the `,` count is the sum of both comma counts before, and a string without `，` is unchanged |
| GraphTag.Parse | graph/tag/main.go:87-93 | the result keeps the tagged text; it has 1 + (number of `,` and `，` in the trimmed reply) tags; no tag contains either comma; joining the tags with `,` gives the trimmed reply with `，` turned into `,` |
| GraphTag.ParseBlankContent | graph/tag/main.go:89-91 | an empty or all-white-space reply gives the single tag `""`, never an empty list |
| GraphTag.LibraryRoundTrip | graph/tag/main.go:79-91 | parsing the library text gives back the phrases iff there is a phrase, no phrase contains a comma of either kind, the first phrase does not start with white space and the last does not end with it |
| GraphTag.RoundTripsParsesBack | graph/tag/main.go:79-91 | the "if" half of the library round trip |
| GraphTag.ParsedBackRoundTrips | graph/tag/main.go:79-91 | the "only if" half of the library round trip |
| GraphTag.LibraryTextUntrimmed | graph/tag/main.go:79-89 | under those conditions trimming leaves the library text unchanged |
| GraphTag.UntrimmedLibraryEnds | graph/tag/main.go:79-89 | a library text that trimming leaves unchanged has no leading white space in its first phrase and no trailing white space in its last |
| GraphTag.PaddedLibraryParsesBack | graph/tag/main.go:79-91 | a reply that is the library text with any white space before and after it still parses back to the phrases when the library round trip holds |
| GraphTag.InteriorSpacesKept | graph/tag/main.go:89-91 | a reply `w1 + a + "，" + b + w2` with white-space padding `w1`, `w2` parses to exactly `[a, b]`: the padding is trimmed, while white space at the end of `a` or the start of `b`, next to the inner comma, stays in the tags |
| UserTool.SearchUserInfoFromDb | tools/search_user_from_db.go:24-46 | the Go error is always nil; "name is required" iff the argument is nil or its name trims to empty (is all white space); the entry, with the name as given, iff the untrimmed name is a key; "user not found" iff the name is non-blank and not a key. The three conditions exclude each other and cover every argument, so exactly one reply is given |
| UserTool.DbContents | tools/search_user_from_db.go:27-31 | the table has exactly the keys 张三, 李四 and 王五, with their company, title and email |
| UserTool.DbKeysTrimmed | tools/search_user_from_db.go:27-31 | every key of the table is non-blank and equal to its trimmed form |
| UserTool.UntrimmedNameNotFound | tools/search_user_from_db.go:32-45 | a non-blank name that trimming would change is always reported as not found |
| UserTool.PaddedKnownNameNotFound | tools/search_user_from_db.go:32-45 | "张三" is found, while " 张三" passes the blank check and is not found |

## Left out

- The eino graph and chain engine is not modelled: `compose`, node wiring, `Compile`, `Invoke`, `Stream`, callbacks and tool nodes live in the external library. The prompt templates are not modelled either, including the `build` node's message formatting (graph/tag/main.go:80-84). The model's reply is a parameter of `GraphTag.Parse`.
- All I/O is left out: loading files, Elasticsearch indexing and retrieval, the chat model, the MCP servers and clients, environment variables and logging.
- The debug print in `search_user_info_from_db` and the `InferTool` wrapper `search_user_info` are left out. Both are side effects or library calls.
- JSON encoding is not modelled: the tool's reply is modelled by the fields of the JSON object, not by its bytes. The ignored `json.Marshal` error is not modelled either, since it cannot occur for these maps.
- Documents are values. A nil `*schema.Document` in the input, which would make Go panic, is not modelled. A nil `*UserQueryParams` is `None`.
- Go returns a nil slice when no chunk is made. The model returns the empty sequence, and Go's callers treat the two alike.
- Metadata values are `any` in Go. The model has only the string and integer values the chunker stores.
- Strings are sequences of Unicode code points. Byte-level UTF-8 and invalid encodings are not modelled.
- `ReplaceAll` is modelled only for one-rune arguments, and `Split` only for a non-empty separator. Those are the only uses in the core. The core never calls `strings.Count`: `CountRune` is there only to state how many tags `GraphTag.Parse` gives.
- The paragraph index is an unbounded natural number, not Go's `int`. A document with more than 2^63 paragraphs cannot exist.
- `BasicRag.AppendDocumentChunks`: the paragraph loop is a separate method called by the document loop, whereas the Go code nests the loops inline. Its `break` still leaves only the paragraph loop, as in Go.
