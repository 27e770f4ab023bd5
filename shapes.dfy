/** The shapes of the editor's document that `makeReal` reads and writes. */
module Shapes {
  import opened Wrappers
  import opened Utf16

  /** tldraw shape ids are strings such as "shape:abc". */
  type ShapeId = string

  /** The `type` of a drawn shape; `Other` stands for every kind without a text label. */
  datatype Kind = Text | Geo | Arrow | Note | Other

  /**
   * A shape of the document. `x` and `y` are the top-left corner of its
   * page bounds. A `Drawn` shape may carry `props.text`; a `Preview` shape
   * (type 'preview') holds a generated page: its `html`, the image
   * `source` it was made from, and the upload markers. Labels, ids and
   * the source are compared only for equality, so they are Dafny strings;
   * the page is a JavaScript string whose length matters.
   */
  datatype Shape =
    | Drawn(kind: Kind, x: int, y: int, text: Option<string>)
    | Preview(x: int, y: int, html: JsText, source: string,
              linkUploadVersion: Option<int>, uploadedShapeId: Option<ShapeId>)

  predicate IsPreview(s: Shape) {
    s.Preview?
  }

  /** The shapes that `ids` name, in the order of `ids` (`editor.getShape(id)`). */
  function Lookup(store: map<ShapeId, Shape>, ids: seq<ShapeId>): (r: seq<Shape>)
    requires forall i :: 0 <= i < |ids| ==> ids[i] in store
    ensures |r| == |ids|
    ensures forall i :: 0 <= i < |ids| ==> r[i] == store[ids[i]]
  {
    seq(|ids|, i requires 0 <= i < |ids| => store[ids[i]])
  }

  /** Adding a shape under an id that `ids` does not mention leaves their lookup unchanged. */
  lemma LookupAfterAdd(store: map<ShapeId, Shape>, id: ShapeId, s: Shape, ids: seq<ShapeId>)
    requires forall i :: 0 <= i < |ids| ==> ids[i] in store && ids[i] != id
    ensures Lookup(store[id := s], ids) == Lookup(store, ids)
  {
  }

  /** Adding a shape under a fresh id and removing it again gives back the store. */
  lemma AddThenRemove(store: map<ShapeId, Shape>, id: ShapeId, s: Shape)
    requires id !in store
    ensures store[id := s] - {id} == store
  {
  }

  /** Replacing a shape that was just added is adding the replacement. */
  lemma AddThenReplace(store: map<ShapeId, Shape>, id: ShapeId, s: Shape, t: Shape)
    ensures store[id := s][id := t] == store[id := t]
  {
  }
}
