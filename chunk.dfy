/** Cutting a text into sliding windows, one document record per window. */
module Chunk {
  import opened PyText

  /** A document's id: the empty string by default, then the window's index. */
  datatype DocId = TextId(text: string) | IndexId(index: int)

  /** `Document`: an id, an optional content and a metadata dictionary whose
      values are of any type `V`. */
  datatype Document<V> = Document(id: DocId, content: Option<string>, metadata: map<string, V>)

  /** `Document()` with every field at its default. */
  function DefaultDocument<V>(): (doc: Document<V>)
    ensures doc.id == TextId("") && doc.content == None && doc.metadata == map[]
  {
    Document(TextId(""), None, map[])
  }

  /** `metadata if metadata else {}`: a missing or empty dictionary becomes a
      new empty one. */
  function MetadataOf<V>(metadata: Option<map<string, V>>): (m: map<string, V>)
    ensures metadata.Some? && metadata.value != map[] ==> m == metadata.value
    ensures metadata == None || metadata.value == map[] ==> m == map[]
  {
    if metadata.Some? && metadata.value != map[] then metadata.value else map[]
  }

  /** The number of windows: `len(range(len(text) - overlap + 1))`. */
  function WindowCount(text: string, overlap: int): (n: nat)
    ensures n == Max(0, |text| - overlap + 1)
  {
    if |text| - overlap + 1 < 0 then 0 else |text| - overlap + 1
  }

  /** The `k`-th document `chunk` yields: id `k`, the text from `k` with
      `overlap` characters (Python slicing), and the metadata. */
  function Window<V>(text: string, metadata: Option<map<string, V>>, overlap: int, k: nat): Document<V> {
    Document(IndexId(k), Some(Slice(text, k, k + overlap)), MetadataOf(metadata))
  }

  /** `Chunker().chunk(text, metadata, overlap)`, with the generator's output
      collected into a list. */
  method Chunk<V>(text: string, metadata: Option<map<string, V>> := None, overlap: int := 0) returns (docs: seq<Document<V>>)
    ensures |docs| == WindowCount(text, overlap)
    ensures forall k :: 0 <= k < |docs| ==> docs[k] == Window(text, metadata, overlap, k)
  {
    docs := [];
    for i := 0 to WindowCount(text, overlap)
      invariant |docs| == i
      invariant forall k :: 0 <= k < i ==> docs[k] == Window(text, metadata, overlap, k)
    {
      var doc: Document<V> := DefaultDocument();
      doc := doc.(id := IndexId(i));
      doc := doc.(content := Some(Slice(text, i, i + overlap)));
      doc := doc.(metadata := if metadata.Some? && metadata.value != map[] then metadata.value else map[]);
      docs := docs + [doc];
    }
  }

  /** For a non-negative overlap every window lies inside the text and holds
      exactly `overlap` characters starting at its index. */
  lemma WindowContent<V>(text: string, metadata: Option<map<string, V>>, overlap: int, k: nat)
    requires 0 <= overlap && k < WindowCount(text, overlap)
    ensures Window(text, metadata, overlap, k).content == Some(text[k..k + overlap])
    ensures |Window(text, metadata, overlap, k).content.value| == overlap
  {
  }

  /** Neighbouring windows share all but one character: the next window is the
      current one moved one character to the right. */
  lemma WindowsSlide<V>(text: string, metadata: Option<map<string, V>>, overlap: int, k: nat)
    requires 1 <= overlap && k + 1 < WindowCount(text, overlap)
    ensures Window(text, metadata, overlap, k + 1).content.value[..overlap - 1]
         == Window(text, metadata, overlap, k).content.value[1..]
    ensures Window(text, metadata, overlap, k).content.value[0] == text[k]
  {
    var w, v := text[k..k + overlap], text[k + 1..k + 1 + overlap];
    assert Window(text, metadata, overlap, k).content.value == w;
    assert Window(text, metadata, overlap, k + 1).content.value == v;
    assert v[..overlap - 1] == text[k + 1..k + overlap] == w[1..];
  }

  /** With no overlap there is one empty window per position and one past the
      end. */
  lemma ZeroOverlap<V>(text: string, metadata: Option<map<string, V>>, k: nat)
    requires k < WindowCount(text, 0)
    ensures WindowCount(text, 0) == |text| + 1
    ensures Window(text, metadata, 0, k).content == Some("")
  {
  }
}
