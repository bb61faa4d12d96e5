/** The knowledge-base screen (components/admin/AdminKnowledge.tsx): the
    search over documents and the label shown for a document's status. */
module AdminKnowledge {
  import opened Text
  import opened Records
  import Lists

  /** The lower-cased title or category contains the lower-cased term. */
  predicate Matches(d: KnowledgeDoc, term: string) {
    Includes(ToLower(d.title), ToLower(term)) || Includes(ToLower(d.category), ToLower(term))
  }

  /** `filteredDocs`. */
  function FilterDocs(docs: seq<KnowledgeDoc>, term: string): (r: seq<KnowledgeDoc>)
    ensures forall i :: 0 <= i < |r| ==> r[i] in docs && Matches(r[i], term)
    ensures forall i :: 0 <= i < |docs| && Matches(docs[i], term) ==> docs[i] in r
  {
    Lists.Filter(docs, d => Matches(d, term))
  }

  /** An empty search keeps every document. */
  lemma EmptyTermKeepsAll(docs: seq<KnowledgeDoc>)
    ensures FilterDocs(docs, "") == docs
  {
    forall i | 0 <= i < |docs|
      ensures Matches(docs[i], "")
    {
      EveryStringIncludesEmpty(ToLower(docs[i].title));
    }
    Lists.FilterKeepsAll(docs, d => Matches(d, ""));
  }

  /** The result is an order-preserving subsequence of the documents,
      taken at exactly the matching positions. */
  lemma FilterDocsOrder(docs: seq<KnowledgeDoc>, term: string) returns (idx: seq<nat>)
    ensures var r := FilterDocs(docs, term);
      && |idx| == |r|
      && (forall k :: 0 <= k < |idx| ==> idx[k] < |docs| && r[k] == docs[idx[k]])
      && (forall k, l :: 0 <= k < l < |idx| ==> idx[k] < idx[l])
      && (forall i :: 0 <= i < |docs| ==> (Matches(docs[i], term) <==> i in idx))
  {
    idx := Lists.FilterPositions(docs, d => Matches(d, term));
  }

  function StatusLabel(status: string): string {
    if status == "published" then "Publié"
    else if status == "draft" then "Brouillon"
    else "Archivé"
  }

  /** Published and draft documents have their own labels; every other
      status reads as archived. */
  lemma StatusLabelSpec(status: string)
    ensures StatusLabel(status) == "Publié" <==> status == "published"
    ensures StatusLabel(status) == "Brouillon" <==> status == "draft"
    ensures StatusLabel(status) == "Archivé" <==> status != "published" && status != "draft"
  {
    assert "Publié"[0] == 'P' && "Brouillon"[0] == 'B' && "Archivé"[0] == 'A';
  }
}
