/** Assembly of the context string in `query_relevant_data`: the texts of the
    retrieved chunks, in the order the retriever returned them, joined with a
    fixed divider. The retriever itself (a similarity search in the vector
    store) is not modelled; its output is an arbitrary sequence of documents. */
module RetrievalContext {
  import opened Documents

  /** The divider written between two retrieved texts. */
  const Divider: string := "\n\n---\n\n"

  /** Total length of a list of strings. */
  function TotalLength(parts: seq<string>): nat
  {
    if |parts| == 0 then 0 else |parts[0]| + TotalLength(parts[1..])
  }

  /** `sep.join(parts)`: the parts with `sep` between each neighbouring pair.
      Its length counts every part once and `sep` once per gap. */
  function Join(sep: string, parts: seq<string>): (r: string)
    ensures |parts| == 0 ==> |r| == 0
    ensures |parts| > 0 ==> |r| == TotalLength(parts) + (|parts| - 1) * |sep|
  {
    if |parts| == 0 then ""
    else if |parts| == 1 then parts[0]
    else parts[0] + sep + Join(sep, parts[1..])
  }

  /** Where part `k` starts in the joined string: part 0 at the start, and
      every later part one separator after the end of the part before it. */
  function Offset(sep: string, parts: seq<string>, k: nat): nat
    requires k <= |parts|
  {
    if k == 0 then 0 else Offset(sep, parts, k - 1) + |parts[k - 1]| + |sep|
  }

  /** Offsets in a list seen after its first part are shifted by that part
      and one separator. */
  lemma {:induction false} OffsetStep(sep: string, parts: seq<string>, k: nat)
    requires 0 < k <= |parts|
    ensures Offset(sep, parts, k) == |parts[0]| + |sep| + Offset(sep, parts[1..], k - 1)
  {
    if k > 1 {
      OffsetStep(sep, parts, k - 1);
    }
  }

  /** A slice lying wholly in the second half of a concatenation. */
  lemma SliceOfSuffix(a: string, b: string, i: nat, j: nat)
    requires |a| <= i <= j <= |a| + |b|
    ensures (a + b)[i..j] == b[i - |a|..j - |a|]
  {
  }

  /** Part `k` sits unchanged at `Offset(k)` in the joined string. */
  lemma {:induction false} JoinPartAt(sep: string, parts: seq<string>, k: nat)
    requires k < |parts|
    ensures Offset(sep, parts, k) + |parts[k]| <= |Join(sep, parts)|
    ensures Join(sep, parts)[Offset(sep, parts, k)..Offset(sep, parts, k) + |parts[k]|] == parts[k]
  {
    var r := Join(sep, parts);
    if |parts| == 1 {
      assert r == parts[0];
    } else {
      var front, rest := parts[0] + sep, Join(sep, parts[1..]);
      assert r == front + rest;
      if k == 0 {
        assert r[..|parts[0]|] == parts[0];
      } else {
        JoinPartAt(sep, parts[1..], k - 1);
        OffsetStep(sep, parts, k);
        var o := Offset(sep, parts[1..], k - 1);
        SliceOfSuffix(front, rest, |front| + o, |front| + o + |parts[k]|);
      }
    }
  }

  /** Between part `k` and part `k + 1` the joined string holds exactly one
      separator. */
  lemma {:induction false} JoinSeparatorAt(sep: string, parts: seq<string>, k: nat)
    requires k + 1 < |parts|
    ensures Offset(sep, parts, k) + |parts[k]| + |sep| <= |Join(sep, parts)|
    ensures Join(sep, parts)[Offset(sep, parts, k) + |parts[k]|..Offset(sep, parts, k) + |parts[k]| + |sep|] == sep
  {
    var r := Join(sep, parts);
    var front, rest := parts[0] + sep, Join(sep, parts[1..]);
    assert r == front + rest;
    if k == 0 {
      assert r[|parts[0]|..|parts[0]| + |sep|] == sep;
    } else {
      JoinSeparatorAt(sep, parts[1..], k - 1);
      OffsetStep(sep, parts, k);
      var e := Offset(sep, parts[1..], k - 1) + |parts[k]|;
      SliceOfSuffix(front, rest, |front| + e, |front| + e + |sep|);
    }
  }

  /** Layout of a joined string: part `k` sits at `Offset(k)` unchanged, and
      between part `k` and part `k + 1` there is exactly one separator, after
      which part `k + 1` starts. With the length in `Join`'s contract this
      determines the whole string: the parts in their given order with
      `|parts| - 1` separators between them. */
  lemma JoinLayout(sep: string, parts: seq<string>, k: nat)
    requires k < |parts|
    ensures Offset(sep, parts, k) + |parts[k]| <= |Join(sep, parts)|
    ensures Join(sep, parts)[Offset(sep, parts, k)..Offset(sep, parts, k) + |parts[k]|] == parts[k]
    ensures k + 1 < |parts| ==>
      && Offset(sep, parts, k + 1) == Offset(sep, parts, k) + |parts[k]| + |sep|
      && Offset(sep, parts, k + 1) <= |Join(sep, parts)|
      && Join(sep, parts)[Offset(sep, parts, k) + |parts[k]|..Offset(sep, parts, k + 1)] == sep
  {
    JoinPartAt(sep, parts, k);
    if k + 1 < |parts| {
      JoinSeparatorAt(sep, parts, k);
    }
  }

  /** Appending one more part to a non-empty list appends a separator and
      that part: earlier text is never disturbed. */
  lemma {:induction false} JoinAppend(sep: string, parts: seq<string>, t: string)
    requires |parts| > 0
    ensures Join(sep, parts + [t]) == Join(sep, parts) + sep + t
  {
    if |parts| > 1 {
      assert (parts + [t])[1..] == parts[1..] + [t];
      JoinAppend(sep, parts[1..], t);
    }
  }

  /** The page texts of the retrieved documents, in retrieval order. */
  function PageContents(docs: seq<Document>): seq<string>
  {
    seq(|docs|, i requires 0 <= i < |docs| => docs[i].pageContent)
  }

  /** `context_text`: zero retrieved chunks give the empty string, one chunk
      gives its text unchanged, and n chunks give all texts with n - 1
      dividers between them. */
  function ContextText(relevantChunks: seq<Document>): (r: string)
    ensures |relevantChunks| == 0 ==> r == ""
    ensures |relevantChunks| == 1 ==> r == relevantChunks[0].pageContent
    ensures |relevantChunks| > 0 ==>
      |r| == TotalLength(PageContents(relevantChunks)) + (|relevantChunks| - 1) * |Divider|
  {
    Join(Divider, PageContents(relevantChunks))
  }

  /** The i-th retrieved text appears unchanged at its offset in the context,
      followed by a divider unless it is the last one. */
  lemma ContextTextLayout(relevantChunks: seq<Document>, i: nat)
    requires i < |relevantChunks|
    ensures var texts := PageContents(relevantChunks);
      var o := Offset(Divider, texts, i);
      var r := ContextText(relevantChunks);
      && o + |texts[i]| <= |r|
      && r[o..o + |texts[i]|] == relevantChunks[i].pageContent
      && (i + 1 < |relevantChunks| ==>
            && Offset(Divider, texts, i + 1) == o + |texts[i]| + |Divider|
            && Offset(Divider, texts, i + 1) <= |r|
            && r[o + |texts[i]|..Offset(Divider, texts, i + 1)] == Divider)
  {
    JoinLayout(Divider, PageContents(relevantChunks), i);
  }
}
