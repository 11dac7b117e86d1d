// Values shared by the ingestion side (the crawler) and the retrieval side:
// a document as the vector store holds it, and the outcome of a call into a
// collaborator that may raise.

module Common {

  /** A document's metadata: string keys (`url`, `doc_id`, `section_h1`, ...)
      to string values; key order does not matter. */
  type Metadata = map<string, string>

  /** A LangChain document: page text and metadata. Two documents are the
      same result exactly when text and metadata are equal. */
  datatype Document = Document(text: string, metadata: Metadata)

  /** The outcome of a call that may raise: the value, or the text of the
      exception (`str(e)`). */
  datatype Result<T> = Ok(value: T) | Err(error: string)

  datatype Option<T> = None | Some(value: T)

  const DocIdKey := "doc_id"
  const UrlKey := "url"

  /** The values of the present entries of `xs`, in order. */
  function Present<T>(xs: seq<Option<T>>): seq<T>
  {
    if xs == [] then []
    else Present(xs[..|xs| - 1]) + if xs[|xs| - 1].Some? then [xs[|xs| - 1].value] else []
  }

  /** The indices of the present entries of `xs`, in order. */
  function PresentAt<T>(xs: seq<Option<T>>): seq<nat>
  {
    if xs == [] then []
    else PresentAt(xs[..|xs| - 1]) + if xs[|xs| - 1].Some? then [|xs| - 1] else []
  }

  /** `Present` keeps exactly the present entries, in their original order:
      its `j`-th value sits at index `PresentAt(xs)[j]`, those indices
      increase, and an index is among them exactly when its entry is present. */
  lemma {:induction false} PresentInOrder<T>(xs: seq<Option<T>>)
    ensures var vs, at := Present(xs), PresentAt(xs);
      && |at| == |vs| <= |xs|
      && (forall j :: 0 <= j < |at| ==> at[j] < |xs| && xs[at[j]] == Some(vs[j]))
      && (forall j, k :: 0 <= j < k < |at| ==> at[j] < at[k])
      && (forall i :: 0 <= i < |xs| ==> (i in at <==> xs[i].Some?))
  {
    if xs != [] {
      var init := xs[..|xs| - 1];
      PresentInOrder(init);
      assert forall i :: 0 <= i < |init| ==> init[i] == xs[i];
    }
  }

  /** Entries appended later never change the values already kept. */
  lemma {:induction false} PresentOfPrefix<T>(xs: seq<Option<T>>, n: nat)
    requires n <= |xs|
    ensures Present(xs[..n]) <= Present(xs)
  {
    if n < |xs| {
      assert xs[..|xs| - 1][..n] == xs[..n];
      PresentOfPrefix(xs[..|xs| - 1], n);
    } else {
      assert xs[..n] == xs;
    }
  }
}
