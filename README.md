# FirstRAG: chunk de-duplication and retrieval context, modelled in Dafny

FirstRAG is a small retrieval-augmented question-answering app. A PDF is
loaded and split into text chunks; the chunks are embedded and stored in a
Chroma vector store; a question retrieves similar chunks, whose texts are
joined into a context string and sent, with the question, to a local chat
model. Almost all of this is delegated to LangChain, Chroma and Ollama. The
two pieces of logic that `functions.py` carries out itself are modelled here:

* **Content-addressed chunk de-duplication** (`create_vectorstore`). Each
  chunk is named by a version-5 UUID (name-based, SHA-1) of its text under
  the DNS namespace, as in section 4.3 of RFC 4122. A loop walks chunks and
  ids in step with a set of ids already seen and a list of kept chunks, and
  keeps a chunk only when its id is new. The kept chunks and `list(unique_ids)`
  are handed to the store.
* **Retrieval context assembly** (`query_relevant_data`). The retrieved chunk
  texts are joined, in retrieval order, with the divider `"\n\n---\n\n"`.

Files:

* `documents.dfy` (module `Documents`): the `Document` value (page text and
  metadata) and sequence helpers (`Elems`, `NoDuplicates`).
* `chunk_identity.dfy` (module `ChunkIdentity`): chunk ids, the reference
  filter `Deduplicated` with its kept positions `KeptIndices`, the loop as the
  method `DeduplicateChunks`, `list(unique_ids)` as `ListOfSet`, and
  `CreateVectorstore`, which produces what is handed to the store.
* `retrieval_context.dfy` (module `RetrievalContext`): `Join` (Python's
  `str.join`), its layout, and `ContextText`.

The UUID generator is a parameter `uuid5: (string, string) -> string` from a
namespace and a name to the canonical UUID text. Being a function it is
deterministic, so equal texts give equal ids. It is not assumed to be
injective: de-duplication is by id, and two different texts that happened to
share an id would be merged, exactly as in the code.

`list(unique_ids)` lists a Python set in its iteration order, not in
insertion order. `ListOfSet` therefore picks elements in an arbitrary order.
The model promises only that the id list handed to the store has the same
ids as the kept chunks, has no repetitions, and has as many entries as there
are kept chunks. It does not claim that the i-th id names the i-th chunk,
because the code does not guarantee it.

## Model

| member | source | states |
|---|---|---|
| `ChunkIdentity.ChunkIds` | functions.py:45 | one id per chunk, in chunk order; each id is the UUID of that chunk's text under the DNS namespace, so chunks with equal texts get equal ids |
| `ChunkIdentity.KeptIndicesAreFirstOccurrences` | functions.py:48-51 | the positions the filter keeps are strictly increasing, and a position is kept exactly when no earlier position has the same id |
| `ChunkIdentity.DeduplicatedSelects` | functions.py:48-51 | the kept items are the input items at the kept positions, in order: the survivors form a subsequence of the input |
| `ChunkIdentity.DeduplicatedIdsDistinct` | functions.py:49-51 | filtering the id list by itself yields no id twice |
| `ChunkIdentity.DeduplicatedIdsCover` | functions.py:48-51 | every id of the input survives the filter |
| `ChunkIdentity.DeduplicatedOfDistinct` | functions.py:49-51 | an input whose ids are pairwise distinct passes the filter unchanged |
| `ChunkIdentity.ChunkIdsOfDedupe` | functions.py:45-51 | the ids of the kept chunks are the input ids filtered the same way |
| `ChunkIdentity.DedupeKeepsFirstOccurrences` | functions.py:45-51 | a chunk is kept exactly when no earlier chunk has the same id (first occurrence wins), and kept chunks keep their relative order |
| `ChunkIdentity.DedupeIdsDistinctAndComplete` | functions.py:45-51 | no two kept chunks share an id, the kept chunks' ids are exactly the input's ids, and there are as many distinct input ids as kept chunks |
| `ChunkIdentity.DedupeIdempotent` | functions.py:45-51 | de-duplicating the de-duplicated chunks returns them unchanged |
| `ChunkIdentity.DeduplicateChunks` | functions.py:45-51 | the loop's list equals the first-occurrence filter of the input, its set equals the set of all input ids, and the two have the same size |
| `ChunkIdentity.ListOfSet` | functions.py:52 | the listed set has the set's elements, the set's size and no repetitions, in an unspecified order |
| `ChunkIdentity.CreateVectorstore` | functions.py:44-53 | the documents handed to the store are the first-occurrence filter of the chunks; the id list has exactly the kept chunks' ids (which are all input ids), no repetitions, and one entry per document |
| `RetrievalContext.Join` | functions.py:72 | the joined string is empty for no parts, and otherwise has the total length of the parts plus one separator per gap |
| `RetrievalContext.JoinPartAt` | functions.py:72 | part k appears unchanged at its offset in the joined string |
| `RetrievalContext.JoinSeparatorAt` | functions.py:72 | exactly one separator follows part k when another part comes after it |
| `RetrievalContext.JoinLayout` | functions.py:72 | parts appear unchanged in their given order, each pair separated by exactly one separator; with the length this fixes the whole string |
| `RetrievalContext.JoinAppend` | functions.py:72 | joining one more part appends a separator and that part, leaving earlier text unchanged |
| `RetrievalContext.ContextText` | functions.py:71-72 | no retrieved chunks give the empty context, one chunk gives its text unchanged, and n chunks give the texts' total length plus n - 1 dividers |
| `RetrievalContext.ContextTextLayout` | functions.py:71-72 | the i-th retrieved text appears unchanged at its offset in the context, followed by exactly one divider unless it is the last |

## Left out

- `load_pdf` (functions.py:25-34): writes the upload to a temporary file and calls PDFPlumber; file I/O and an external library.
- `split_documents` (functions.py:36-38): the splitting is done by LangChain's `RecursiveCharacterTextSplitter`, whose code is not part of this model; only its parameters (size 300, overlap 50, separators paragraph, line, space) are visible.
- `create_embeddings` (functions.py:40-42): a foreign Ollama embedding model producing floating-point vectors.
- `Chroma.from_documents` (functions.py:52): the store itself, its embedding calls and persistence under `vectorstore_path`; the model stops at the documents and ids handed to it.
- `as_retriever` and `retriever.invoke` (functions.py:56, 71): the similarity search is a library call; the retrieved documents are an arbitrary input sequence of `ContextText`.
- The prompt template, `format_messages` and the `ChatOllama` call (functions.py:57-81): library templating and a network call to a language model.
- The internals of `uuid.uuid5` (SHA-1 hashing and UUID formatting): the generator is a function parameter; no collision-freedom is assumed.
- `app.py` and `app/app.py`: the Streamlit user interface, upload handling, caching with `st.cache_resource` and the catch-all error display.
