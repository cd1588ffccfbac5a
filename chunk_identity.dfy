/** Content-addressed identity and de-duplication of chunks before they are
    handed to the vector store (`create_vectorstore`).

    Every chunk is named by a version-5 (SHA-1, name-based) UUID of its text
    under the DNS namespace, as in section 4.3 of RFC 4122. The hash itself is
    not modelled: the generator is the parameter `uuid5`, a total function
    from (namespace, name) to the canonical text of the UUID. Being a
    function it is deterministic; nothing here assumes it is injective, so two
    different texts may share an id and de-duplication is by id, not by text. */
module ChunkIdentity {
  import opened Documents

  /** Canonical text of the DNS namespace UUID of RFC 4122, appendix C. */
  const NamespaceDns: string := "6ba7b810-9dad-11d1-80b4-00c04fd430c8"

  /** The id of one chunk: the name-based UUID of its text. */
  function ChunkId(uuid5: (string, string) -> string, doc: Document): string
  {
    uuid5(NamespaceDns, doc.pageContent)
  }

  /** The list of ids, one per chunk, in chunk order. Each id depends only on
      its chunk's text, so chunks with equal texts get equal ids. */
  function ChunkIds(uuid5: (string, string) -> string, chunks: seq<Document>): (ids: seq<string>)
    ensures |ids| == |chunks|
    ensures forall i :: 0 <= i < |chunks| ==> ids[i] == uuid5(NamespaceDns, chunks[i].pageContent)
  {
    if |chunks| == 0 then [] else [ChunkId(uuid5, chunks[0])] + ChunkIds(uuid5, chunks[1..])
  }

  /** Position `i` holds the first occurrence of its id. */
  predicate IsFirstOccurrence(ids: seq<string>, i: int)
    requires 0 <= i < |ids|
  {
    forall j :: 0 <= j < i ==> ids[j] != ids[i]
  }

  /** Reference filter: the items whose id did not occur at an earlier
      position, in their original order. Defined from the end so that it
      unfolds in step with a left-to-right loop. */
  function Deduplicated<T>(items: seq<T>, ids: seq<string>): seq<T>
    requires |items| == |ids|
  {
    if |items| == 0 then []
    else
      var n := |items| - 1;
      Deduplicated(items[..n], ids[..n]) + (if ids[n] in ids[..n] then [] else [items[n]])
  }

  /** The positions that `Deduplicated` keeps, in increasing order. */
  function KeptIndices(ids: seq<string>): seq<nat>
  {
    if |ids| == 0 then []
    else
      var n := |ids| - 1;
      KeptIndices(ids[..n]) + (if ids[n] in ids[..n] then [] else [n])
  }

  /** De-duplication of a chunk list as a whole: ids are computed from the
      texts, then the first chunk of every id is kept. */
  function Dedupe(uuid5: (string, string) -> string, chunks: seq<Document>): seq<Document>
  {
    Deduplicated(chunks, ChunkIds(uuid5, chunks))
  }

  /** The kept positions are exactly the first occurrences, listed in
      strictly increasing order. */
  lemma {:induction false} KeptIndicesAreFirstOccurrences(ids: seq<string>)
    ensures forall k :: 0 <= k < |KeptIndices(ids)| ==> KeptIndices(ids)[k] < |ids|
    ensures forall a, b :: 0 <= a < b < |KeptIndices(ids)| ==> KeptIndices(ids)[a] < KeptIndices(ids)[b]
    ensures forall i :: 0 <= i < |ids| ==> (i in KeptIndices(ids) <==> IsFirstOccurrence(ids, i))
  {
    if |ids| > 0 {
      var n := |ids| - 1;
      var init := ids[..n];
      KeptIndicesAreFirstOccurrences(init);
      var k := KeptIndices(ids);
      assert k == KeptIndices(init) + (if ids[n] in init then [] else [n]);
      forall i | 0 <= i < n
        ensures IsFirstOccurrence(ids, i) == IsFirstOccurrence(init, i)
      {
        assert forall j :: 0 <= j < i ==> init[j] == ids[j];
      }
      assert IsFirstOccurrence(ids, n) <==> ids[n] !in init by {
        if ids[n] in init {
          var j :| 0 <= j < n && init[j] == ids[n];
          assert ids[j] == ids[n];
        }
      }
    }
  }

  /** `Deduplicated` selects, in order, the items at the kept positions: the
      survivors are a subsequence of the input. */
  lemma {:induction false} DeduplicatedSelects<T>(items: seq<T>, ids: seq<string>)
    requires |items| == |ids|
    ensures |Deduplicated(items, ids)| == |KeptIndices(ids)|
    ensures forall k :: 0 <= k < |KeptIndices(ids)| ==>
              KeptIndices(ids)[k] < |items| && Deduplicated(items, ids)[k] == items[KeptIndices(ids)[k]]
  {
    KeptIndicesAreFirstOccurrences(ids);
    if |items| > 0 {
      var n := |items| - 1;
      DeduplicatedSelects(items[..n], ids[..n]);
      KeptIndicesAreFirstOccurrences(ids[..n]);
    }
  }

  /** Applied to the ids themselves, the filter yields each id once. */
  lemma DeduplicatedIdsDistinct(ids: seq<string>)
    ensures NoDuplicates(Deduplicated(ids, ids))
  {
    var d, k := Deduplicated(ids, ids), KeptIndices(ids);
    DeduplicatedSelects(ids, ids);
    KeptIndicesAreFirstOccurrences(ids);
    forall a, b | 0 <= a < b < |d| ensures d[a] != d[b] {
      assert k[b] in k;
      assert IsFirstOccurrence(ids, k[b]);
    }
  }

  /** Every id of the input survives the filter. */
  lemma {:induction false} DeduplicatedIdsCover(ids: seq<string>)
    ensures Elems(Deduplicated(ids, ids)) == Elems(ids)
  {
    if |ids| > 0 {
      var n := |ids| - 1;
      var init := ids[..n];
      DeduplicatedIdsCover(init);
      assert ids == init + [ids[n]];
      assert Elems(ids) == Elems(init) + {ids[n]};
    }
  }

  /** An input whose ids are all distinct passes the filter unchanged. */
  lemma {:induction false} DeduplicatedOfDistinct<T>(items: seq<T>, ids: seq<string>)
    requires |items| == |ids|
    requires NoDuplicates(ids)
    ensures Deduplicated(items, ids) == items
  {
    if |items| > 0 {
      var n := |items| - 1;
      assert NoDuplicates(ids[..n]);
      DeduplicatedOfDistinct(items[..n], ids[..n]);
      assert items == items[..n] + [items[n]];
    }
  }

  /** The ids of the kept chunks are the filtered id list. */
  lemma ChunkIdsOfDedupe(uuid5: (string, string) -> string, chunks: seq<Document>)
    ensures ChunkIds(uuid5, Dedupe(uuid5, chunks)) == Deduplicated(ChunkIds(uuid5, chunks), ChunkIds(uuid5, chunks))
  {
    var ids := ChunkIds(uuid5, chunks);
    var kept, keptIds := Dedupe(uuid5, chunks), Deduplicated(ids, ids);
    DeduplicatedSelects(chunks, ids);
    DeduplicatedSelects(ids, ids);
    var lhs := ChunkIds(uuid5, kept);
    assert |lhs| == |keptIds|;
    forall k | 0 <= k < |lhs| ensures lhs[k] == keptIds[k] {
    }
  }

  /** A chunk is kept exactly when no earlier chunk has the same id (the first
      occurrence wins), and survivors keep their relative order. */
  lemma DedupeKeepsFirstOccurrences(uuid5: (string, string) -> string, chunks: seq<Document>)
    ensures var k := KeptIndices(ChunkIds(uuid5, chunks));
      && |Dedupe(uuid5, chunks)| == |k|
      && (forall a :: 0 <= a < |k| ==> k[a] < |chunks| && Dedupe(uuid5, chunks)[a] == chunks[k[a]])
      && (forall a, b :: 0 <= a < b < |k| ==> k[a] < k[b])
      && (forall i :: 0 <= i < |chunks| ==>
            (i in k <==> forall j :: 0 <= j < i ==> ChunkId(uuid5, chunks[j]) != ChunkId(uuid5, chunks[i])))
  {
    var ids := ChunkIds(uuid5, chunks);
    DeduplicatedSelects(chunks, ids);
    KeptIndicesAreFirstOccurrences(ids);
  }

  /** No two kept chunks share an id, every id of the input is represented,
      and there are as many distinct ids as kept chunks. */
  lemma DedupeIdsDistinctAndComplete(uuid5: (string, string) -> string, chunks: seq<Document>)
    ensures NoDuplicates(ChunkIds(uuid5, Dedupe(uuid5, chunks)))
    ensures Elems(ChunkIds(uuid5, Dedupe(uuid5, chunks))) == Elems(ChunkIds(uuid5, chunks))
    ensures |Elems(ChunkIds(uuid5, chunks))| == |Dedupe(uuid5, chunks)|
  {
    var ids := ChunkIds(uuid5, chunks);
    ChunkIdsOfDedupe(uuid5, chunks);
    DeduplicatedIdsDistinct(ids);
    DeduplicatedIdsCover(ids);
    DistinctCardinality(Deduplicated(ids, ids));
  }

  /** Running de-duplication again on its own output changes nothing. */
  lemma DedupeIdempotent(uuid5: (string, string) -> string, chunks: seq<Document>)
    ensures Dedupe(uuid5, Dedupe(uuid5, chunks)) == Dedupe(uuid5, chunks)
  {
    var once := Dedupe(uuid5, chunks);
    DedupeIdsDistinctAndComplete(uuid5, chunks);
    DeduplicatedOfDistinct(once, ChunkIds(uuid5, once));
  }

  /** One more step of the filter over a prefix of the input. */
  lemma DeduplicatedPrefixStep<T>(items: seq<T>, ids: seq<string>, i: nat)
    requires |items| == |ids| && i < |items|
    ensures Deduplicated(items[..i + 1], ids[..i + 1])
         == Deduplicated(items[..i], ids[..i]) + (if ids[i] in ids[..i] then [] else [items[i]])
    ensures Elems(ids[..i + 1]) == Elems(ids[..i]) + {ids[i]}
  {
    assert items[..i + 1][..i] == items[..i] && ids[..i + 1][..i] == ids[..i];
    assert ids[..i + 1] == ids[..i] + [ids[i]];
  }

  /** The loop of `create_vectorstore`: walk chunks and ids in step, keep a
      set of ids already seen and a list of kept chunks, and append a chunk
      only when its id is new. */
  method DeduplicateChunks(uuid5: (string, string) -> string, chunks: seq<Document>)
    returns (uniqueChunks: seq<Document>, uniqueIds: set<string>)
    ensures uniqueChunks == Dedupe(uuid5, chunks)
    ensures uniqueIds == Elems(ChunkIds(uuid5, chunks))
    ensures |uniqueIds| == |uniqueChunks|
  {
    var ids := ChunkIds(uuid5, chunks);
    uniqueIds := {};
    uniqueChunks := [];
    var i := 0;
    while i < |chunks|
      invariant 0 <= i <= |chunks|
      invariant uniqueChunks == Deduplicated(chunks[..i], ids[..i])
      invariant uniqueIds == Elems(ids[..i])
      invariant |uniqueIds| == |uniqueChunks|
    {
      var chunk, id := chunks[i], ids[i];
      DeduplicatedPrefixStep(chunks, ids, i);
      assert (id in uniqueIds) == (id in ids[..i]);
      if id !in uniqueIds {
        uniqueIds := uniqueIds + {id};
        uniqueChunks := uniqueChunks + [chunk];
      }
      i := i + 1;
    }
    assert chunks[..i] == chunks && ids[..i] == ids;
  }

  /** `list(unique_ids)`: the set turned into a list in the set's own
      iteration order, which the model leaves arbitrary. Only membership,
      count and the absence of repetitions are promised. */
  method ListOfSet(s: set<string>) returns (l: seq<string>)
    ensures Elems(l) == s
    ensures |l| == |s|
    ensures NoDuplicates(l)
  {
    l := [];
    var rest := s;
    while rest != {}
      invariant ListedSoFar(s, l, rest)
      decreases rest
    {
      var x :| x in rest;
      ListOneMore(s, l, rest, x);
      l := l + [x];
      rest := rest - {x};
    }
    DistinctCardinality(l);
  }

  /** Part of `s` has been listed in `l`, without repetitions, and `rest` is
      what is still to be listed. */
  predicate ListedSoFar(s: set<string>, l: seq<string>, rest: set<string>)
  {
    Elems(l) + rest == s && Elems(l) !! rest && NoDuplicates(l)
  }

  lemma ListOneMore(s: set<string>, l: seq<string>, rest: set<string>, x: string)
    requires ListedSoFar(s, l, rest) && x in rest
    ensures ListedSoFar(s, l + [x], rest - {x})
  {
  }

  /** What `create_vectorstore` hands to the store: the kept chunks and an id
      list with the same ids and the same count. The order of the id list is
      the set's iteration order, so the i-th id need not name the i-th chunk. */
  method CreateVectorstore(uuid5: (string, string) -> string, chunks: seq<Document>)
    returns (documents: seq<Document>, storeIds: seq<string>)
    ensures documents == Dedupe(uuid5, chunks)
    ensures Elems(storeIds) == Elems(ChunkIds(uuid5, documents)) == Elems(ChunkIds(uuid5, chunks))
    ensures |storeIds| == |documents|
    ensures NoDuplicates(storeIds)
  {
    var uniqueIds;
    documents, uniqueIds := DeduplicateChunks(uuid5, chunks);
    storeIds := ListOfSet(uniqueIds);
    DedupeIdsDistinctAndComplete(uuid5, chunks);
  }
}
