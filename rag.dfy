/**
 * The pure glue of the retrieval tool: the context handed to the prompt,
 * the heading path of a Markdown section, the chunks cut from a document
 * and the batch of texts, metadata and ids added to the vector store. The
 * Markdown and character splitters, the vector store, the file system and
 * the hash are parameters.
 */
module Rag {
  import opened Wrappers
  import opened PyStr

  /** Metadata of a section or a chunk: key to text. */
  type Metadata = map<string, string>

  /** The separator placed between retrieved documents. */
  const Separator := "\n\n---\n\n"

  /** The heading levels the Markdown splitter records, in order. */
  const HeadingKeys: seq<string> := ["h1", "h2", "h3"]

  const HeadingJoint := " > "
  const HeadingPathKey := "source_heading_path"
  const PathKey := "path"

  /** The retrieved page contents in search order, joined by the separator. */
  function JoinedContext(docs: seq<string>): string
  {
    Join(Separator, docs)
  }

  /** The context of `retrieve_context` for the documents the search returned: the join cut to `maxChars` as Python's `[:maxChars]` cuts. */
  function ContextOf(docs: seq<string>, maxChars: int): (ctx: string)
    ensures StartsWith(JoinedContext(docs), ctx)
    ensures 0 <= maxChars ==> |ctx| <= maxChars
    ensures 0 <= maxChars ==> |ctx| == if maxChars < |JoinedContext(docs)| then maxChars else |JoinedContext(docs)|
    ensures maxChars < 0 ==> |ctx| == if |JoinedContext(docs)| + maxChars < 0 then 0 else |JoinedContext(docs)| + maxChars
    ensures 0 <= maxChars && |JoinedContext(docs)| <= maxChars ==> ctx == JoinedContext(docs)
  {
    PyPrefix(JoinedContext(docs), maxChars)
  }

  /** `retrieve_context`: the similarity search is a parameter that may fail. */
  function RetrieveContext(question: string, k: int, maxChars: int, search: (string, int) -> Result<seq<string>>): (r: Result<string>)
    ensures r.Raised? <==> search(question, k).Raised?
    ensures r.Ok? ==> r.value == ContextOf(search(question, k).value, maxChars)
  {
    match search(question, k)
    case Raised(e) => Raised(e)
    case Ok(docs) => Ok(ContextOf(docs, maxChars))
  }

  /** No documents give the empty context. */
  lemma ContextOfNoDocuments(maxChars: int)
    ensures ContextOf([], maxChars) == ""
  {
  }

  /** One document gives its own front part. */
  lemma ContextOfOneDocument(doc: string, maxChars: int)
    ensures ContextOf([doc], maxChars) == PyPrefix(doc, maxChars)
  {
  }

  /** Documents keep their search order: one more document extends the join by the separator and that document. */
  lemma JoinedContextAppend(docs: seq<string>, doc: string)
    requires docs != []
    ensures JoinedContext(docs + [doc]) == JoinedContext(docs) + Separator + doc
  {
    JoinAppend(Separator, docs, doc);
  }

  /** The first document opens the context, as far as the cut allows. */
  lemma ContextStartsWithFirstDocument(docs: seq<string>, maxChars: nat)
    requires docs != [] && maxChars <= |docs[0]|
    ensures ContextOf(docs, maxChars) == docs[0][..maxChars]
  {
    var j := JoinedContext(docs);
    if |docs| > 1 {
      assert j == docs[0] + Separator + Join(Separator, docs[1..]);
    }
    assert j[..maxChars] == docs[0][..maxChars];
  }

  /** The values of the heading levels present in the metadata, in level order. */
  function PresentHeadings(meta: Metadata): (hs: seq<string>)
    ensures |hs| <= 3
    ensures hs == [] <==> "h1" !in meta && "h2" !in meta && "h3" !in meta
    ensures forall i | 0 <= i < |hs| :: hs[i] in meta.Values
  {
    (if "h1" in meta then [meta["h1"]] else []) +
    (if "h2" in meta then [meta["h2"]] else []) +
    (if "h3" in meta then [meta["h3"]] else [])
  }

  /** The heading path of a section: its present headings joined with " > ". */
  function HeadingPath(meta: Metadata): (hp: string)
    ensures "h1" !in meta && "h2" !in meta && "h3" !in meta ==> hp == ""
    ensures "h1" in meta && "h2" !in meta && "h3" !in meta ==> hp == meta["h1"]
    ensures "h1" !in meta && "h2" in meta && "h3" !in meta ==> hp == meta["h2"]
    ensures "h1" !in meta && "h2" !in meta && "h3" in meta ==> hp == meta["h3"]
  {
    Join(HeadingJoint, PresentHeadings(meta))
  }

  /** A section with all three headings lists them from the top level down. */
  lemma HeadingPathAllLevels(meta: Metadata)
    requires "h1" in meta && "h2" in meta && "h3" in meta
    ensures HeadingPath(meta) == meta["h1"] + HeadingJoint + meta["h2"] + HeadingJoint + meta["h3"]
  {
    var hs := [meta["h1"], meta["h2"], meta["h3"]];
    assert PresentHeadings(meta) == hs;
    assert hs[1..] == [meta["h2"], meta["h3"]];
    assert Join(HeadingJoint, hs[1..]) == meta["h2"] + HeadingJoint + meta["h3"];
  }

  /** A missing level is skipped rather than left empty. */
  lemma HeadingPathSkipsMissingLevel(meta: Metadata)
    requires "h1" in meta && "h2" !in meta && "h3" in meta
    ensures HeadingPath(meta) == meta["h1"] + HeadingJoint + meta["h3"]
  {
    assert PresentHeadings(meta) == [meta["h1"], meta["h3"]];
  }

  /** Keys other than the three levels play no part in the path. */
  lemma HeadingPathIgnoresOtherKeys(meta: Metadata, key: string, value: string)
    requires key !in HeadingKeys
    ensures HeadingPath(meta[key := value]) == HeadingPath(meta)
  {
    assert PresentHeadings(meta[key := value]) == PresentHeadings(meta);
  }

  /** A header section from the Markdown splitter. */
  datatype Section = Section(content: string, metadata: Metadata)

  /** A chunk of a section with its metadata. */
  datatype Chunk = Chunk(content: string, metadata: Metadata)

  /** The chunks of one section: each piece with the section's heading path as its only metadata. */
  function SectionChunks(d: Section, pieces: seq<string>): (cs: seq<Chunk>)
    ensures |cs| == |pieces|
    ensures forall i | 0 <= i < |cs| :: cs[i].content == pieces[i]
    ensures forall i | 0 <= i < |cs| :: cs[i].metadata.Keys == {HeadingPathKey} && cs[i].metadata[HeadingPathKey] == HeadingPath(d.metadata)
  {
    seq(|pieces|, i requires 0 <= i < |pieces| => Chunk(pieces[i], map[HeadingPathKey := HeadingPath(d.metadata)]))
  }

  /** The chunks of all sections, section by section, each cut by the character splitter. */
  function ChunksOf(sections: seq<Section>, size: int, overlap: int, split: (string, int, int) -> seq<string>): (cs: seq<Chunk>)
    ensures forall c | c in cs :: c.metadata.Keys == {HeadingPathKey}
    decreases |sections|
  {
    if sections == [] then []
    else
      var last := sections[|sections| - 1];
      ChunksOf(sections[..|sections| - 1], size, overlap, split) + SectionChunks(last, split(last.content, size, overlap))
  }

  /** Chunks keep section order: the chunks of two runs of sections are those of the first, then those of the second. */
  lemma {:induction false} ChunksOfAppend(a: seq<Section>, b: seq<Section>, size: int, overlap: int, split: (string, int, int) -> seq<string>)
    ensures ChunksOf(a + b, size, overlap, split) == ChunksOf(a, size, overlap, split) + ChunksOf(b, size, overlap, split)
    decreases |b|
  {
    if b == [] {
      assert a + b == a;
    } else {
      var b' := b[..|b| - 1];
      var d := b[|b| - 1];
      var tail := SectionChunks(d, split(d.content, size, overlap));
      assert (a + b)[..|a + b| - 1] == a + b';
      assert (a + b)[|a + b| - 1] == d;
      assert ChunksOf(a + b, size, overlap, split) == ChunksOf(a + b', size, overlap, split) + tail;
      assert ChunksOf(b, size, overlap, split) == ChunksOf(b', size, overlap, split) + tail;
      ChunksOfAppend(a, b', size, overlap, split);
    }
  }

  /**
   * `split_markdown_with_headers`: the text is cut into header sections,
   * each section into pieces, and every piece is appended with its
   * section's heading path.
   */
  method SplitMarkdownWithHeaders(
    mdText: string, chunkSize: int, chunkOverlap: int,
    headerSplit: string -> seq<Section>, split: (string, int, int) -> seq<string>)
    returns (chunks: seq<Chunk>)
    ensures chunks == ChunksOf(headerSplit(mdText), chunkSize, chunkOverlap, split)
  {
    var headerDocs := headerSplit(mdText);
    chunks := [];
    for i := 0 to |headerDocs|
      invariant chunks == ChunksOf(headerDocs[..i], chunkSize, chunkOverlap, split)
    {
      var d := headerDocs[i];
      var headingPath := HeadingPath(d.metadata);
      var pieces := split(d.content, chunkSize, chunkOverlap);
      ghost var before := chunks;
      for j := 0 to |pieces|
        invariant chunks == before + SectionChunks(d, pieces)[..j]
      {
        chunks := chunks + [Chunk(pieces[j], map[HeadingPathKey := headingPath])];
        assert SectionChunks(d, pieces)[..j + 1] == SectionChunks(d, pieces)[..j] + [SectionChunks(d, pieces)[j]];
      }
      assert SectionChunks(d, pieces)[..|pieces|] == SectionChunks(d, pieces);
      assert headerDocs[..i + 1][..i] == headerDocs[..i];
    }
    assert headerDocs[..|headerDocs|] == headerDocs;
  }

  /** The collaborators of the index build: file system, path rendering, splitters and hash. */
  datatype Env = Env(
    fileExists: string -> bool,
    read: string -> string,
    pathText: string -> string,
    headerSplit: string -> seq<Section>,
    split: (string, int, int) -> seq<string>,
    hash: string -> string)

  /** One entry of the batch: a text, its metadata and its id. */
  datatype Entry = Entry(text: string, metadata: Metadata, id: string)

  /** The three lists handed to `add_texts`. */
  datatype Batch = Batch(texts: seq<string>, metadatas: seq<Metadata>, ids: seq<string>)

  /** A chunk of the file at `path` as an entry: the path put in front of the chunk's metadata, the id hashed from path and text. */
  function EntryOf(path: string, c: Chunk, hash: string -> string): (e: Entry)
    ensures e.text == c.content && e.id == hash(path + "::" + c.content)
    ensures e.metadata.Keys == c.metadata.Keys + {PathKey}
    ensures forall k | k in c.metadata :: e.metadata[k] == c.metadata[k]
    ensures PathKey !in c.metadata ==> e.metadata[PathKey] == path
  {
    Entry(c.content, map[PathKey := path] + c.metadata, hash(path + "::" + c.content))
  }

  /** The entries of the chunks of one file, in chunk order. */
  function ChunkEntries(path: string, chunks: seq<Chunk>, hash: string -> string): (es: seq<Entry>)
    ensures |es| == |chunks|
    ensures forall i | 0 <= i < |es| :: es[i] == EntryOf(path, chunks[i], hash)
  {
    seq(|chunks|, i requires 0 <= i < |chunks| => EntryOf(path, chunks[i], hash))
  }

  /** The chunks of the file at `p`. */
  function FileChunks(p: string, size: int, overlap: int, env: Env): seq<Chunk>
  {
    ChunksOf(env.headerSplit(env.read(p)), size, overlap, env.split)
  }

  /** The entries a file contributes: none when it does not exist. */
  function FileEntries(p: string, size: int, overlap: int, env: Env): (es: seq<Entry>)
    ensures !env.fileExists(p) ==> es == []
  {
    if !env.fileExists(p) then [] else ChunkEntries(env.pathText(p), FileChunks(p, size, overlap, env), env.hash)
  }

  /** The entries of all files, file by file. */
  function IndexEntries(paths: seq<string>, size: int, overlap: int, env: Env): (es: seq<Entry>)
    ensures (forall p | p in paths :: !env.fileExists(p)) ==> es == []
    decreases |paths|
  {
    if paths == [] then []
    else IndexEntries(paths[..|paths| - 1], size, overlap, env) + FileEntries(paths[|paths| - 1], size, overlap, env)
  }

  /** The entries split into the three lists, kept in lockstep. */
  function BatchOf(es: seq<Entry>): (b: Batch)
    ensures |b.texts| == |es| && |b.metadatas| == |es| && |b.ids| == |es|
    ensures forall i | 0 <= i < |es| :: b.texts[i] == es[i].text && b.metadatas[i] == es[i].metadata && b.ids[i] == es[i].id
  {
    Batch(
      seq(|es|, i requires 0 <= i < |es| => es[i].text),
      seq(|es|, i requires 0 <= i < |es| => es[i].metadata),
      seq(|es|, i requires 0 <= i < |es| => es[i].id))
  }

  /** Every entry's metadata has exactly the path and the heading path, and its id is the hash of its path and text. */
  predicate WellFormedEntry(e: Entry, hash: string -> string)
  {
    e.metadata.Keys == {PathKey, HeadingPathKey} && e.id == hash(e.metadata[PathKey] + "::" + e.text)
  }

  /** Chunks whose only key is the heading path give well-formed entries carrying the file's path. */
  lemma ChunkEntriesWellFormed(path: string, chunks: seq<Chunk>, hash: string -> string)
    requires forall c | c in chunks :: c.metadata.Keys == {HeadingPathKey}
    ensures forall e | e in ChunkEntries(path, chunks, hash) :: WellFormedEntry(e, hash) && e.metadata[PathKey] == path
  {
    var es := ChunkEntries(path, chunks, hash);
    forall e | e in es
      ensures WellFormedEntry(e, hash) && e.metadata[PathKey] == path
    {
      var i :| 0 <= i < |es| && es[i] == e;
      assert chunks[i] in chunks;
      assert e.metadata == map[PathKey := path] + chunks[i].metadata;
    }
  }

  /** The entries of one file are well formed and all carry that file's path. */
  lemma FileEntriesWellFormed(p: string, size: int, overlap: int, env: Env)
    ensures forall e | e in FileEntries(p, size, overlap, env) :: WellFormedEntry(e, env.hash) && e.metadata[PathKey] == env.pathText(p)
  {
    if env.fileExists(p) {
      ChunkEntriesWellFormed(env.pathText(p), FileChunks(p, size, overlap, env), env.hash);
    }
  }

  /** All entries of the batch are well formed. */
  lemma {:induction false} IndexEntriesWellFormed(paths: seq<string>, size: int, overlap: int, env: Env)
    ensures forall e | e in IndexEntries(paths, size, overlap, env) :: WellFormedEntry(e, env.hash)
    decreases |paths|
  {
    if paths != [] {
      IndexEntriesWellFormed(paths[..|paths| - 1], size, overlap, env);
      FileEntriesWellFormed(paths[|paths| - 1], size, overlap, env);
    }
  }

  /** A missing file contributes nothing, wherever it stands in the list. */
  lemma {:induction false} IndexSkipsMissingFile(a: seq<string>, p: string, b: seq<string>, size: int, overlap: int, env: Env)
    requires !env.fileExists(p)
    ensures IndexEntries(a + [p] + b, size, overlap, env) == IndexEntries(a + b, size, overlap, env)
    decreases |b|
  {
    if b == [] {
      assert (a + [p] + b)[..|a + [p] + b| - 1] == a;
      assert a + b == a;
    } else {
      var b' := b[..|b| - 1];
      assert (a + [p] + b)[..|a + [p] + b| - 1] == a + [p] + b';
      assert (a + b)[..|a + b| - 1] == a + b';
      IndexSkipsMissingFile(a, p, b', size, overlap, env);
    }
  }

  /** The inner loop of `build_update_index`: each chunk's text, metadata and id are appended to the three lists in lockstep. */
  method AppendChunks(
    texts: seq<string>, metadatas: seq<Metadata>, ids: seq<string>, ghost done: seq<Entry>,
    path: string, chunks: seq<Chunk>, hash: string -> string)
    returns (texts': seq<string>, metadatas': seq<Metadata>, ids': seq<string>)
    requires Batch(texts, metadatas, ids) == BatchOf(done)
    ensures Batch(texts', metadatas', ids') == BatchOf(done + ChunkEntries(path, chunks, hash))
  {
    texts', metadatas', ids' := texts, metadatas, ids;
    ghost var es := ChunkEntries(path, chunks, hash);
    for j := 0 to |chunks|
      invariant Batch(texts', metadatas', ids') == BatchOf(done + es[..j])
    {
      var content := chunks[j].content;
      var m := map[PathKey := path] + chunks[j].metadata;
      texts' := texts' + [content];
      metadatas' := metadatas' + [m];
      ids' := ids' + [hash(path + "::" + content)];
      assert done + es[..j + 1] == (done + es[..j]) + [es[j]];
    }
    assert es[..|chunks|] == es;
  }

  /**
   * `build_update_index`: for each existing file, each chunk's text,
   * metadata and id are appended in lockstep; the batch is added to the
   * store (returned here) only when it holds at least one text.
   */
  method BuildUpdateIndex(docPaths: seq<string>, chunkSize: int, chunkOverlap: int, env: Env)
    returns (added: Option<Batch>)
    ensures IndexEntries(docPaths, chunkSize, chunkOverlap, env) == [] ==> added == None
    ensures IndexEntries(docPaths, chunkSize, chunkOverlap, env) != [] ==> added == Some(BatchOf(IndexEntries(docPaths, chunkSize, chunkOverlap, env)))
  {
    var texts: seq<string> := [];
    var metadatas: seq<Metadata> := [];
    var ids: seq<string> := [];
    ghost var done: seq<Entry> := [];
    for i := 0 to |docPaths|
      invariant done == IndexEntries(docPaths[..i], chunkSize, chunkOverlap, env)
      invariant Batch(texts, metadatas, ids) == BatchOf(done)
    {
      var p := docPaths[i];
      assert docPaths[..i + 1][..i] == docPaths[..i];
      if !env.fileExists(p) {
        continue;
      }
      var path := env.pathText(p);
      var md := env.read(p);
      var chunks := SplitMarkdownWithHeaders(md, chunkSize, chunkOverlap, env.headerSplit, env.split);
      texts, metadatas, ids := AppendChunks(texts, metadatas, ids, done, path, chunks, env.hash);
      done := done + ChunkEntries(path, chunks, env.hash);
    }
    assert docPaths[..|docPaths|] == docPaths;
    if |texts| > 0 {
      added := Some(Batch(texts, metadatas, ids));
    } else {
      added := None;
    }
  }
}
