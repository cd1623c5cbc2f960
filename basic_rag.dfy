/**
 * The text routines of the retrieval-augmented chat example: cutting loaded
 * documents into paragraph chunks before they are indexed, and gluing the
 * retrieved documents into the context block of the chat prompt.
 */
module BasicRag {
  import opened GoStrings

  /** A metadata value; the chunker stores a string and an integer. */
  datatype MetaValue = StringValue(s: string) | IntValue(i: int)

  /** `schema.Document`: an id, the text, and free-form metadata. */
  datatype Document = Document(id: string, content: string, metaData: map<string, MetaValue>)

  /** Paragraphs are separated by an empty line. */
  const ParagraphSeparator: string := "\n\n"

  /** The chunker stops a document after emitting the paragraph with this index. */
  const LastParagraphIndex: nat := 10

  const SourceKey: string := "source"
  const ParagraphIndexKey: string := "paragraph_index"

  /** The paragraphs of a document, blank ones included. */
  function Paragraphs(doc: Document): seq<string> {
    Split(doc.content, ParagraphSeparator)
  }

  /** The chunk made from paragraph `idx` of `doc`, whose trimmed text is `text` (MakeChunkFields says what it holds). */
  function MakeChunk(doc: Document, idx: nat, text: string): Document {
    Document(doc.id + "_para_" + FormatNat(idx), text,
             map[SourceKey := StringValue(doc.id), ParagraphIndexKey := IntValue(idx)])
  }

  /**
   * The chunk literal: the chunk of paragraph `idx` carries the text, its id
   * is the document's id, `_para_` and the decimal digits of `idx` without
   * leading zeros, and its metadata holds exactly the source and the index.
   */
  lemma MakeChunkFields(doc: Document, idx: nat, text: string)
    ensures var c := MakeChunk(doc, idx, text);
      c.content == text
      && c.metaData.Keys == {SourceKey, ParagraphIndexKey}
      && c.metaData[SourceKey] == StringValue(doc.id) && RecordedIndex(c) == idx
      && |c.id| > |doc.id| + 6 && c.id[..|doc.id|] == doc.id && c.id[|doc.id|..|doc.id| + 6] == "_para_"
      && (forall k :: |doc.id| + 6 <= k < |c.id| ==> IsDigit(c.id[k]))
      && (|c.id| > |doc.id| + 7 ==> c.id[|doc.id| + 6] != '0')
      && ParseNat(c.id[|doc.id| + 6..]) == idx
  {
    var id := MakeChunk(doc, idx, text).id;
    ParseFormatNat(idx);
    assert id[|doc.id| + 6..] == FormatNat(idx);
  }

  /** The paragraph index a chunk records in its metadata, or -1. */
  function RecordedIndex(chunk: Document): int {
    if ParagraphIndexKey in chunk.metaData && chunk.metaData[ParagraphIndexKey].IntValue?
    then chunk.metaData[ParagraphIndexKey].i
    else -1
  }

  /**
   * Whether paragraph `idx` yields a chunk: it is not blank, and the scan has
   * not already stopped at a non-blank paragraph 10.
   */
  predicate Kept(paras: seq<string>, idx: nat)
    requires idx < |paras|
  {
    !AllSpace(paras[idx]) && (idx <= LastParagraphIndex || AllSpace(paras[LastParagraphIndex]))
  }

  /** The chunks of `doc` made from its paragraphs `paras` below index `n`. */
  function Chunks(doc: Document, paras: seq<string>, n: nat): (cs: seq<Document>)
    requires n <= |paras|
    ensures |cs| <= n
  {
    if n == 0 then []
    else
      Chunks(doc, paras, n - 1)
      + (if Kept(paras, n - 1) then [MakeChunk(doc, n - 1, TrimSpace(paras[n - 1]))] else [])
  }

  /** The chunks `chunkDocuments` makes of one document. */
  function DocChunks(doc: Document): seq<Document> {
    Chunks(doc, Paragraphs(doc), |Paragraphs(doc)|)
  }

  /** The chunks `chunkDocuments` makes of a list of documents, in order. */
  function AllChunks(docs: seq<Document>): seq<Document> {
    Flatten(DocChunks, docs)
  }

  /** The concatenation of `f(x)` over the elements `x` of `xs`, in order. */
  function Flatten<T, U>(f: T -> seq<U>, xs: seq<T>): seq<U> {
    if xs == [] then [] else Flatten(f, xs[..|xs| - 1]) + f(xs[|xs| - 1])
  }

  lemma {:induction false} FlattenAppend<T, U>(f: T -> seq<U>, a: seq<T>, b: seq<T>)
    ensures Flatten(f, a + b) == Flatten(f, a) + Flatten(f, b)
    decreases |b|
  {
    if b == [] {
      assert a + b == a;
    } else {
      var b' := b[..|b| - 1];
      assert (a + b)[..|a + b| - 1] == a + b';
      FlattenAppend(f, a, b');
    }
  }

  // After a non-blank paragraph 10 no further paragraph is kept.
  lemma {:induction false} NothingKeptAfterStop(doc: Document, paras: seq<string>, n: nat)
    requires LastParagraphIndex < n <= |paras|
    requires !AllSpace(paras[LastParagraphIndex])
    ensures Chunks(doc, paras, n) == Chunks(doc, paras, LastParagraphIndex + 1)
  {
    if n > LastParagraphIndex + 1 {
      NothingKeptAfterStop(doc, paras, n - 1);
    }
  }

  /**
   * `chunkDocuments`: for each document in turn, split its content into
   * paragraphs, skip the blank ones, emit one chunk per remaining paragraph,
   * and leave the document once paragraph 10 has been emitted.
   */
  method ChunkDocuments(docs: seq<Document>) returns (chunkedDocs: seq<Document>)
    ensures chunkedDocs == AllChunks(docs)
  {
    chunkedDocs := [];
    for k := 0 to |docs|
      invariant chunkedDocs == AllChunks(docs[..k])
    {
      chunkedDocs := AppendDocumentChunks(chunkedDocs, docs[k]);
      AllChunksStep(docs, k);
    }
    assert docs[..|docs|] == docs;
  }

  /**
   * The body of the document loop of `chunkDocuments`: the paragraph loop,
   * which appends the chunks of `doc` to those already collected.
   */
  method AppendDocumentChunks(collected: seq<Document>, doc: Document) returns (chunkedDocs: seq<Document>)
    ensures chunkedDocs == collected + DocChunks(doc)
  {
    chunkedDocs := collected;
    var paragraphs := Split(doc.content, ParagraphSeparator);
    for idx := 0 to |paragraphs|
      invariant chunkedDocs == collected + Chunks(doc, paragraphs, idx)
      invariant idx > LastParagraphIndex ==> AllSpace(paragraphs[LastParagraphIndex])
    {
      var paragraph := TrimSpace(paragraphs[idx]);
      if paragraph == "" {
        BlankParagraphSkipped(doc, paragraphs, idx);
        continue;
      }
      var chunkDoc := MakeChunk(doc, idx, paragraph);
      chunkedDocs := chunkedDocs + [chunkDoc];
      ParagraphKept(doc, paragraphs, idx);
      if idx == LastParagraphIndex {
        NothingKeptAfterStop(doc, paragraphs, |paragraphs|);
        break;
      }
    }
  }

  // A blank paragraph adds no chunk, and a blank paragraph 10 does not stop the scan.
  lemma BlankParagraphSkipped(doc: Document, paras: seq<string>, idx: nat)
    requires idx < |paras| && TrimSpace(paras[idx]) == ""
    ensures Chunks(doc, paras, idx + 1) == Chunks(doc, paras, idx)
    ensures idx == LastParagraphIndex ==> AllSpace(paras[LastParagraphIndex])
  {
  }

  // A non-blank paragraph adds its chunk, while the scan has not stopped.
  lemma ParagraphKept(doc: Document, paras: seq<string>, idx: nat)
    requires idx < |paras| && TrimSpace(paras[idx]) != ""
    requires idx > LastParagraphIndex ==> AllSpace(paras[LastParagraphIndex])
    ensures Chunks(doc, paras, idx + 1) == Chunks(doc, paras, idx) + [MakeChunk(doc, idx, TrimSpace(paras[idx]))]
  {
  }

  // One more document.
  lemma AllChunksStep(docs: seq<Document>, k: nat)
    requires k < |docs|
    ensures AllChunks(docs[..k + 1]) == AllChunks(docs[..k]) + DocChunks(docs[k])
  {
    assert docs[..k + 1][..k] == docs[..k];
  }

  /** The chunks below `n` are exactly the chunks of the kept paragraphs below `n`. */
  lemma ChunksMembership(doc: Document, paras: seq<string>, n: nat, c: Document)
    requires n <= |paras|
    ensures c in Chunks(doc, paras, n) <==>
      exists i :: 0 <= i < n && Kept(paras, i) && c == MakeChunk(doc, i, TrimSpace(paras[i]))
  {
    if c in Chunks(doc, paras, n) {
      var i := ChunkSource(doc, paras, n, c);
    }
    if exists i :: 0 <= i < n && Kept(paras, i) && c == MakeChunk(doc, i, TrimSpace(paras[i])) {
      var i :| 0 <= i < n && Kept(paras, i) && c == MakeChunk(doc, i, TrimSpace(paras[i]));
      KeptParagraphChunked(doc, paras, n, i);
    }
  }

  // The paragraph a chunk was made from.
  lemma {:induction false} ChunkSource(doc: Document, paras: seq<string>, n: nat, c: Document)
    returns (i: nat)
    requires n <= |paras| && c in Chunks(doc, paras, n)
    ensures i < n && Kept(paras, i) && c == MakeChunk(doc, i, TrimSpace(paras[i]))
  {
    var prev := Chunks(doc, paras, n - 1);
    if c in prev {
      i := ChunkSource(doc, paras, n - 1, c);
    } else {
      i := n - 1;
    }
  }

  // A kept paragraph gives its chunk.
  lemma {:induction false} KeptParagraphChunked(doc: Document, paras: seq<string>, n: nat, i: nat)
    requires i < n <= |paras| && Kept(paras, i)
    ensures MakeChunk(doc, i, TrimSpace(paras[i])) in Chunks(doc, paras, n)
  {
    if i < n - 1 {
      KeptParagraphChunked(doc, paras, n - 1, i);
    }
  }

  /** The recorded indices of the chunks below `n` are below `n` and strictly increase. */
  lemma {:induction false} ChunksIndices(doc: Document, paras: seq<string>, n: nat)
    requires n <= |paras|
    ensures forall j :: 0 <= j < |Chunks(doc, paras, n)| ==>
      0 <= RecordedIndex(Chunks(doc, paras, n)[j]) < n
    ensures forall j, j' :: 0 <= j < j' < |Chunks(doc, paras, n)| ==>
      RecordedIndex(Chunks(doc, paras, n)[j]) < RecordedIndex(Chunks(doc, paras, n)[j'])
  {
    if n > 0 {
      ChunksIndices(doc, paras, n - 1);
      var prev := Chunks(doc, paras, n - 1);
      var cs := Chunks(doc, paras, n);
      forall j | 0 <= j < |cs| ensures 0 <= RecordedIndex(cs[j]) < n {
        if j < |prev| {
          assert cs[j] == prev[j];
          assert 0 <= RecordedIndex(prev[j]) < n - 1;
        } else {
          assert cs[j] == MakeChunk(doc, n - 1, TrimSpace(paras[n - 1]));
        }
      }
      forall j, j' | 0 <= j < j' < |cs| ensures RecordedIndex(cs[j]) < RecordedIndex(cs[j']) {
        assert cs[j] == prev[j];
        if j' < |prev| { assert cs[j'] == prev[j']; }
      }
    }
  }

  /**
   * What the chunks of one document are: exactly one chunk per kept
   * paragraph, carrying the trimmed paragraph, the id `<doc id>_para_<index>`
   * and the metadata `source` and `paragraph_index`.
   */
  lemma DocChunksMembership(doc: Document, c: Document)
    ensures c in DocChunks(doc) <==>
      exists i :: 0 <= i < |Paragraphs(doc)| && Kept(Paragraphs(doc), i) &&
        c == Document(doc.id + "_para_" + FormatNat(i), TrimSpace(Paragraphs(doc)[i]),
                      map[SourceKey := StringValue(doc.id), ParagraphIndexKey := IntValue(i)])
  {
    ChunksMembership(doc, Paragraphs(doc), |Paragraphs(doc)|, c);
  }

  /** Every chunk carries non-empty text, and comes from one of the documents. */
  lemma ChunkContentNonEmpty(docs: seq<Document>, c: Document)
    requires c in AllChunks(docs)
    ensures c.content != ""
    ensures exists k :: 0 <= k < |docs| && c in DocChunks(docs[k])
  {
    var k := ChunkOrigin(docs, c);
    var paras := Paragraphs(docs[k]);
    ChunksMembership(docs[k], paras, |paras|, c);
  }

  // The position of the document a chunk comes from.
  lemma {:induction false} ChunkOrigin(docs: seq<Document>, c: Document) returns (k: nat)
    requires c in AllChunks(docs)
    ensures k < |docs| && c in DocChunks(docs[k])
    decreases |docs|
  {
    var init := docs[..|docs| - 1];
    if c in DocChunks(docs[|docs| - 1]) {
      k := |docs| - 1;
    } else {
      k := ChunkOrigin(init, c);
      assert docs[k] == init[k];
    }
  }

  /** Within one document the recorded paragraph indices strictly increase. */
  lemma DocChunksIncreasing(doc: Document, j: nat, j': nat)
    requires j < j' < |DocChunks(doc)|
    ensures 0 <= RecordedIndex(DocChunks(doc)[j]) < RecordedIndex(DocChunks(doc)[j'])
  {
    ChunksIndices(doc, Paragraphs(doc), |Paragraphs(doc)|);
  }

  /** Within one document no two chunks share an id. */
  lemma DocChunkIdsDistinct(doc: Document, j: nat, j': nat)
    requires j < j' < |DocChunks(doc)|
    ensures DocChunks(doc)[j].id != DocChunks(doc)[j'].id
  {
    var cs := DocChunks(doc);
    DocChunksIncreasing(doc, j, j');
    ChunkIdNamesIndex(doc, cs[j]);
    ChunkIdNamesIndex(doc, cs[j']);
    ChunkIdsDiffer(doc.id, RecordedIndex(cs[j]), RecordedIndex(cs[j']));
  }

  // A chunk's id is the document id, `_para_` and the index it records.
  lemma ChunkIdNamesIndex(doc: Document, c: Document)
    requires c in DocChunks(doc)
    ensures RecordedIndex(c) >= 0 && c.id == doc.id + "_para_" + FormatNat(RecordedIndex(c))
  {
    var paras := Paragraphs(doc);
    ChunksMembership(doc, paras, |paras|, c);
  }

  // Different indices give different ids.
  lemma ChunkIdsDiffer(id: string, i: nat, i': nat)
    requires i != i'
    ensures id + "_para_" + FormatNat(i) != id + "_para_" + FormatNat(i')
  {
    var prefix := id + "_para_";
    FormatNatInjective(i, i');
    assert FormatNat(i) == (prefix + FormatNat(i))[|prefix|..];
    assert FormatNat(i') == (prefix + FormatNat(i'))[|prefix|..];
  }

  /**
   * A non-blank paragraph 10 ends the document: no chunk has a larger index,
   * so a document gives at most 11 chunks.
   */
  lemma StopAtParagraphTen(doc: Document)
    requires LastParagraphIndex < |Paragraphs(doc)|
    requires !AllSpace(Paragraphs(doc)[LastParagraphIndex])
    ensures forall c :: c in DocChunks(doc) ==> RecordedIndex(c) <= LastParagraphIndex
    ensures |DocChunks(doc)| <= LastParagraphIndex + 1
  {
    var paras := Paragraphs(doc);
    NothingKeptAfterStop(doc, paras, |paras|);
    ChunksIndices(doc, paras, LastParagraphIndex + 1);
  }

  /**
   * A blank paragraph 10 is skipped by `continue` before the stop is reached:
   * every later non-blank paragraph still gives its chunk.
   */
  lemma BlankParagraphTenDoesNotStop(doc: Document, i: nat)
    requires LastParagraphIndex < i < |Paragraphs(doc)|
    requires AllSpace(Paragraphs(doc)[LastParagraphIndex])
    requires !AllSpace(Paragraphs(doc)[i])
    ensures MakeChunk(doc, i, TrimSpace(Paragraphs(doc)[i])) in DocChunks(doc)
  {
    var paras := Paragraphs(doc);
    ChunksMembership(doc, paras, |paras|, MakeChunk(doc, i, TrimSpace(paras[i])));
  }

  /** A document whose content is empty or only white space gives no chunks. */
  lemma BlankDocumentNoChunks(doc: Document)
    requires AllSpace(doc.content)
    ensures DocChunks(doc) == []
  {
    var paras := Paragraphs(doc);
    forall i | 0 <= i < |paras| ensures AllSpace(paras[i]) {
      BlankPiecesBlank(doc.content, ParagraphSeparator, paras[i]);
    }
    BlankParagraphsNoChunks(doc, paras, |paras|);
  }

  // Blank paragraphs give no chunks.
  lemma {:induction false} BlankParagraphsNoChunks(doc: Document, paras: seq<string>, n: nat)
    requires n <= |paras|
    requires forall i :: 0 <= i < |paras| ==> AllSpace(paras[i])
    ensures Chunks(doc, paras, n) == []
  {
    if n > 0 {
      BlankParagraphsNoChunks(doc, paras, n - 1);
    }
  }

  // A piece of a split of white space is white space.
  lemma {:induction false} BlankPiecesBlank(s: string, sep: string, p: string)
    requires sep != [] && AllSpace(s) && p in Split(s, sep)
    ensures AllSpace(p)
    decreases |s|
  {
    var i := Index(s, sep);
    if i >= 0 && p != s[..i] {
      BlankPiecesBlank(s[i + |sep|..], sep, p);
    }
  }

  /** The chunks of a concatenation of document lists: the first list's chunks come first. */
  lemma AllChunksAppend(a: seq<Document>, b: seq<Document>)
    ensures AllChunks(a + b) == AllChunks(a) + AllChunks(b)
  {
    FlattenAppend(DocChunks, a, b);
  }

  /** The chunks of document `k` stand after those of every earlier document and before later ones. */
  lemma ChunksInDocumentOrder(docs: seq<Document>, k: nat)
    requires k < |docs|
    ensures AllChunks(docs) == AllChunks(docs[..k]) + DocChunks(docs[k]) + AllChunks(docs[k + 1..])
  {
    var pre, post := docs[..k + 1], docs[k + 1..];
    assert docs == pre + post;
    FlattenAppend(DocChunks, pre, post);
    assert pre[..k] == docs[..k];
  }

  /** `buildChatContext`'s result: each content followed by an empty line, in order. */
  function ChatContext(docs: seq<Document>): string {
    if docs == [] then "" else ChatContext(docs[..|docs| - 1]) + docs[|docs| - 1].content + "\n\n"
  }

  /** The total length of the contents, each with its two newlines. */
  function ContextLength(docs: seq<Document>): nat {
    if docs == [] then 0 else ContextLength(docs[..|docs| - 1]) + |docs[|docs| - 1].content| + 2
  }

  /**
   * `buildChatContext`: append every document's content and an empty line
   * to the context, document by document.
   */
  method BuildChatContext(docs: seq<Document>) returns (content: string)
    ensures content == ChatContext(docs)
  {
    content := "";
    for k := 0 to |docs|
      invariant content == ChatContext(docs[..k])
    {
      content := content + docs[k].content + "\n\n";
      assert docs[..k + 1][..k] == docs[..k];
    }
    assert docs[..|docs|] == docs;
  }

  /** An empty list gives an empty context. */
  lemma ChatContextEmpty()
    ensures ChatContext([]) == ""
  {
  }

  /** The context is as long as the contents plus two newlines per document. */
  lemma {:induction false} ChatContextLength(docs: seq<Document>)
    ensures |ChatContext(docs)| == ContextLength(docs)
    decreases |docs|
  {
    if docs != [] {
      ChatContextLength(docs[..|docs| - 1]);
    }
  }

  lemma {:induction false} ChatContextAppend(a: seq<Document>, b: seq<Document>)
    ensures ChatContext(a + b) == ChatContext(a) + ChatContext(b)
    decreases |b|
  {
    if b == [] {
      assert a + b == a;
    } else {
      var b' := b[..|b| - 1];
      assert (a + b)[..|a + b| - 1] == a + b';
      ChatContextAppend(a, b');
    }
  }

  /**
   * Document `k`'s content stands in the context right after the text of the
   * documents before it, and is followed by an empty line.
   */
  lemma ChatContextLayout(docs: seq<Document>, k: nat)
    requires k < |docs|
    ensures var at := |ChatContext(docs[..k])|;
      var ctx := ChatContext(docs);
      at + |docs[k].content| + 2 <= |ctx| &&
      ctx[at..at + |docs[k].content|] == docs[k].content &&
      ctx[at + |docs[k].content|..at + |docs[k].content| + 2] == "\n\n"
  {
    assert docs == docs[..k] + [docs[k]] + docs[k + 1..];
    ChatContextAppend(docs[..k] + [docs[k]], docs[k + 1..]);
    ChatContextAppend(docs[..k], [docs[k]]);
    assert [docs[k]][..0] == [];
  }
}
