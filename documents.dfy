/** Documents as the pipeline passes them around, and small facts about
    sequences of identifiers that the other modules share. */
module Documents {

  /** A chunk of extracted text with the metadata it inherited from its page
      (page number, source path, ...). Only `pageContent` takes part in the
      logic modelled here; the metadata is carried along unchanged. */
  datatype Document = Document(pageContent: string, metadata: map<string, string>)

  /** The set of elements of a sequence. */
  function Elems<T>(s: seq<T>): set<T>
  {
    set x | x in s
  }

  /** No element occurs twice in `s`. */
  predicate NoDuplicates<T(==)>(s: seq<T>)
  {
    forall i, j :: 0 <= i < j < |s| ==> s[i] != s[j]
  }

  /** A sequence without repetitions has exactly as many distinct elements
      as it has positions. */
  lemma {:induction false} DistinctCardinality<T>(s: seq<T>)
    requires NoDuplicates(s)
    ensures |Elems(s)| == |s|
  {
    if |s| > 0 {
      var n := |s| - 1;
      var init := s[..n];
      assert NoDuplicates(init);
      DistinctCardinality(init);
      assert s == init + [s[n]];
      assert s[n] !in Elems(init) by {
        forall x | x in init ensures x != s[n] {
          var j :| 0 <= j < n && init[j] == x;
        }
      }
      assert Elems(s) == Elems(init) + {s[n]};
    }
  }
}
