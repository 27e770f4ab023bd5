/**
 * `makeReal`: capture the selection, show a placeholder preview at once,
 * ask the completion endpoint for a page, and then either fill the
 * placeholder with the page or delete it and re-raise the error.
 *
 * The editor's document is a class whose shape store the operation
 * changes in place. What the collaborators that are not modelled answer
 * (the fresh shape id, the selection's page bounds, the rendered image,
 * the endpoint's reply, the upload) is given as an `Env`, so every
 * combination of successes and failures is covered. The operation also
 * returns the calls it made, in order.
 */
module MakeReal {
  import opened Wrappers
  import opened Seqs
  import opened Shapes
  import opened JsString
  import opened HtmlExtract
  import opened ReadingOrder
  import opened Failures
  import opened Utf16

  /** The analytics event sent when earlier previews are part of the selection. */
  const RepeatEvent: string := "repeat_make_real"

  /** The placeholder sits this far to the right of the selection. */
  const PreviewGap: int := 60

  /** Half the height of a new preview: `(540 * 2) / 3 / 2`. */
  const PreviewHalfHeight: int := (540 * 2) / 3 / 2

  datatype Theme = Light | Dark

  /** What is sent to the completion endpoint. */
  datatype Request = Request(image: string, apiKey: string, text: string,
                             previousPreviews: seq<Shape>, theme: Theme)

  /** What rendering the selection gives: no SVG, a failed rasterisation, or the image as a data URL. */
  datatype Capture = SvgMissing | RasterFailed(reason: string) | Image(dataUrl: string)

  /** What the completion request gives: a thrown error, an error body, or the model's text. */
  datatype Reply = RequestFailed(reason: string) | ApiError(message: Option<JsText>) | Completion(content: JsText)

  /** What the upload gives. */
  datatype UploadResult = Uploaded | UploadFailed(reason: string)

  /**
   * The answers of the collaborators for one invocation. `withDescendants`
   * is the editor's answer to `getShapeAndDescendantIds` for the selection:
   * the selected shapes and every shape nested inside them.
   */
  datatype Env = Env(newShapeId: ShapeId, withDescendants: seq<ShapeId>, maxX: int, midY: int,
                     capture: Capture, reply: Reply, upload: UploadResult)

  /** One call made by `makeReal`, to the editor or to another collaborator. */
  datatype Call =
    | Create(id: ShapeId, shape: Shape)
    | Track(event: string)
    | Complete(request: Request)
    | Upload(id: ShapeId, html: JsText)
    | Update(id: ShapeId, shape: Shape)
    | Delete(id: ShapeId)

  /** The placeholder: right of the selection, vertically centred, no page yet, the captured image as source. */
  function Placeholder(maxX: int, midY: int, dataUrl: string): (p: Shape)
    ensures p.Preview? && p.html == [] && p.source == dataUrl
    ensures p.linkUploadVersion.None? && p.uploadedShapeId.None?
    ensures p.x == maxX + PreviewGap && p.y == midY - PreviewHalfHeight
  {
    Preview(maxX + PreviewGap, midY - PreviewHalfHeight, [], dataUrl, None, None)
  }

  /** The preview after `updateShape`: same place, with the page, the image and the upload markers. */
  function Filled(p: Shape, html: JsText, source: string, id: ShapeId): (q: Shape)
    requires p.Preview?
    ensures q.Preview? && q.x == p.x && q.y == p.y
    ensures q.html == html && q.source == source
    ensures q.linkUploadVersion == Some(1) && q.uploadedShapeId == Some(id)
  {
    p.(html := html, source := source, linkUploadVersion := Some(1), uploadedShapeId := Some(id))
  }

  /**
   * The page the `try` block would upload, or the error it raises before
   * the upload: a thrown request, an error body (its message cut to 100
   * code units), or an extracted page under 100 code units. An accepted
   * page always runs from a doctype marker to a closing tag; a reply
   * without one of the markers is always refused.
   */
  function Candidate(reply: Reply): (r: Result<JsText, Error>)
    ensures r.Success? <==> reply.Completion? && Accepted(ExtractHtml(reply.content))
    ensures r.Success? ==> r.value == ExtractHtml(reply.content) && IsDocument(r.value)
    ensures reply.Completion? && !(Occurs(reply.content, Doctype) && Occurs(reply.content, Closing)) ==>
      r == Failure(TooShort)
    ensures reply.ApiError? ==> r == Failure(Endpoint(EndpointMessage(reply.message)))
    ensures reply.RequestFailed? ==> r == Failure(Thrown(reply.reason))
  {
    match reply
    case RequestFailed(reason) => Failure(Thrown(reason))
    case ApiError(message) => Failure(Endpoint(EndpointMessage(message)))
    case Completion(content) =>
      var html := ExtractHtml(content);
      if |html| < MinLength then Failure(TooShort)
      else
        AcceptedIsDocument(content);
        Success(html)
  }

  /**
   * The calls of the `try` block and its `catch`, in order: the request,
   * the upload when the page is accepted, then the update of the
   * placeholder when the upload succeeds, or else its deletion.
   */
  function TryCalls(id: ShapeId, placeholder: Shape, request: Request, reply: Reply, upload: UploadResult): seq<Call>
    requires placeholder.Preview?
  {
    var candidate := Candidate(reply);
    [Complete(request)]
    + (if candidate.Success? then [Upload(id, candidate.value)] else [])
    + (if candidate.Success? && upload.Uploaded?
       then [Update(id, Filled(placeholder, candidate.value, request.image, id))]
       else [Delete(id)])
  }

  /** The tldraw editor, reduced to what `makeReal` reads and writes. */
  class Editor {
    var shapes: map<ShapeId, Shape>
    var selection: seq<ShapeId>
    var isDarkMode: bool

    /** Every selected id names a shape of the document. */
    ghost predicate Valid()
      reads this
    {
      forall i :: 0 <= i < |selection| ==> selection[i] in shapes
    }

    constructor (shapes: map<ShapeId, Shape>, selection: seq<ShapeId>, isDarkMode: bool)
      requires forall i :: 0 <= i < |selection| ==> selection[i] in shapes
      ensures Valid()
      ensures this.shapes == shapes && this.selection == selection && this.isDarkMode == isDarkMode
    {
      this.shapes := shapes;
      this.selection := selection;
      this.isDarkMode := isDarkMode;
    }

    /** `editor.getSelectedShapes()`. */
    function SelectedShapes(): (r: seq<Shape>)
      reads this
      requires Valid()
      ensures |r| == |selection|
      ensures forall i :: 0 <= i < |r| ==> r[i] == shapes[selection[i]]
    {
      Lookup(shapes, selection)
    }

    /** `editor.createShape`: adds a shape under an id not yet in use. */
    method CreateShape(id: ShapeId, shape: Shape)
      requires Valid() && id !in shapes
      modifies this
      ensures Valid()
      ensures shapes == old(shapes)[id := shape]
      ensures selection == old(selection) && isDarkMode == old(isDarkMode)
    {
      shapes := shapes[id := shape];
    }

    /**
     * `editor.updateShape` with the props of a preview: replaces them and
     * keeps the position; a missing id or a shape that is not a preview
     * is left alone.
     */
    method UpdatePreview(id: ShapeId, html: JsText, source: string, uploadedId: ShapeId)
      requires Valid()
      modifies this
      ensures Valid()
      ensures id in old(shapes) && old(shapes)[id].Preview? ==>
        shapes == old(shapes)[id := Filled(old(shapes)[id], html, source, uploadedId)]
      ensures !(id in old(shapes) && old(shapes)[id].Preview?) ==> shapes == old(shapes)
      ensures selection == old(selection) && isDarkMode == old(isDarkMode)
    {
      if id in shapes && shapes[id].Preview? {
        shapes := shapes[id := Filled(shapes[id], html, source, uploadedId)];
      }
    }

    /** `editor.deleteShape` for a shape outside the selection. */
    method DeleteShape(id: ShapeId)
      requires Valid() && id !in selection
      modifies this
      ensures Valid()
      ensures shapes == old(shapes) - {id}
      ensures selection == old(selection) && isDarkMode == old(isDarkMode)
    {
      shapes := shapes - {id};
    }

    /**
     * The `try` block of `makeReal` and its `catch`, once the placeholder
     * `id` exists: request the completion, extract and check the page,
     * upload it, then write it into the placeholder. On any error the
     * placeholder is deleted and the error is raised again.
     */
    method TryGenerate(id: ShapeId, placeholder: Shape, request: Request, reply: Reply, upload: UploadResult)
      returns (result: Outcome<Error>, calls: seq<Call>)
      requires Valid() && id !in selection
      requires id in shapes && shapes[id] == placeholder && placeholder.Preview?
      modifies this
      ensures Valid()
      ensures selection == old(selection) && isDarkMode == old(isDarkMode)
      ensures var candidate := Candidate(reply);
        var stored := candidate.Success? && upload.Uploaded?;
        && calls == TryCalls(id, placeholder, request, reply, upload)
        && (stored ==>
              && result == Pass
              && shapes == old(shapes)[id := Filled(placeholder, candidate.value, request.image, id)])
        && (!stored ==>
              && result == Fail(if candidate.Failure? then candidate.error else Thrown(upload.reason))
              && shapes == old(shapes) - {id})
    {
      var failure: Option<Error> := None;
      calls := [Complete(request)];
      match reply {
        case RequestFailed(reason) =>
          assert Candidate(reply) == Failure(Thrown(reason));
          failure := Some(Thrown(reason));
        case ApiError(message) =>
          assert Candidate(reply) == Failure(Endpoint(EndpointMessage(message)));
          failure := Some(Endpoint(EndpointMessage(message)));
        case Completion(message) =>
          var start := IndexOf(message, Doctype);
          var end := IndexOf(message, Closing);
          var html := Slice(message, start, end + |Closing|);
          assert html == ExtractHtml(message);
          if |html| < MinLength {
            assert Candidate(reply) == Failure(TooShort);
            failure := Some(TooShort);
          } else {
            assert Candidate(reply) == Success(html);
            calls := calls + [Upload(id, html)];
            if upload.UploadFailed? {
              failure := Some(Thrown(upload.reason));
            } else {
              UpdatePreview(id, html, request.image, id);
              calls := calls + [Update(id, Filled(placeholder, html, request.image, id))];
            }
          }
      }

      if failure.Some? {
        DeleteShape(id);
        calls := calls + [Delete(id)];
        result := Fail(failure.value);
      } else {
        result := Pass;
      }
    }

    /**
     * `makeReal(editor, apiKey)`. Refused with nothing created when the
     * selection is empty or cannot be captured. Otherwise the placeholder
     * is created before anything else happens, the repeat event is sent
     * if earlier previews are selected, and the completion is requested
     * with the image and the text of the selected shapes and the shapes
     * nested inside them. If the reply yields an
     * accepted page it is uploaded and then written into the placeholder;
     * if any of these steps fails, the placeholder is deleted and the
     * same error is raised. Either way, no other shape changes.
     */
    method MakeReal(apiKey: string, env: Env) returns (result: Outcome<Error>, calls: seq<Call>)
      requires Valid()
      requires env.newShapeId !in shapes
      requires forall i :: 0 <= i < |env.withDescendants| ==> env.withDescendants[i] in shapes
      modifies this
      ensures Valid()
      ensures selection == old(selection) && isDarkMode == old(isDarkMode)
      ensures result.Fail? ==> shapes == old(shapes)
      ensures result.Pass? ==> shapes.Keys == old(shapes).Keys + {env.newShapeId}
      ensures old(selection) == [] ==> result == Fail(NoSelection) && calls == []
      ensures old(selection) != [] && env.capture.SvgMissing? ==> result == Fail(NoSvg) && calls == []
      ensures old(selection) != [] && env.capture.RasterFailed? ==>
        result == Fail(Thrown(env.capture.reason)) && calls == []
      ensures old(selection) != [] && env.capture.Image? ==>
        var id, dataUrl := env.newShapeId, env.capture.dataUrl;
        var placeholder := Placeholder(env.maxX, env.midY, dataUrl);
        var selected := Lookup(old(shapes), selection);
        var previous := Filter(IsPreview, selected);
        var text := SelectionAsText(Lookup(old(shapes), env.withDescendants));
        var request := Request(dataUrl, apiKey, text, previous,
                               if isDarkMode then Dark else Light);
        var candidate := Candidate(env.reply);
        var stored := candidate.Success? && env.upload.Uploaded?;
        && calls == [Create(id, placeholder)]
                    + (if previous != [] then [Track(RepeatEvent)] else [])
                    + TryCalls(id, placeholder, request, env.reply, env.upload)
        && (stored ==>
              && result == Pass
              && shapes == old(shapes)[id := Filled(placeholder, candidate.value, dataUrl, id)])
        && (!stored ==>
              result == Fail(if candidate.Failure? then candidate.error else Thrown(env.upload.reason)))
    {
      var id := env.newShapeId;
      var selectedShapes := SelectedShapes();
      if |selectedShapes| == 0 {
        return Fail(NoSelection), [];
      }
      var previousPreviews := Filter(IsPreview, selectedShapes);
      assert selectedShapes == Lookup(old(shapes), selection);

      // Rendering and rasterisation, before anything is created.
      if env.capture.SvgMissing? {
        return Fail(NoSvg), [];
      } else if env.capture.RasterFailed? {
        return Fail(Thrown(env.capture.reason)), [];
      }
      var dataUrl := env.capture.dataUrl;

      var placeholder := Placeholder(env.maxX, env.midY, dataUrl);
      CreateShape(id, placeholder);
      calls := [Create(id, placeholder)];

      if |previousPreviews| > 0 {
        calls := calls + [Track(RepeatEvent)];
      }
      ghost var opening := calls;
      assert opening == [Create(id, placeholder)] + (if previousPreviews != [] then [Track(RepeatEvent)] else []);

      LookupAfterAdd(old(shapes), id, placeholder, env.withDescendants);
      var textFromShapes := SelectionAsText(Lookup(shapes, env.withDescendants));
      assert textFromShapes == SelectionAsText(Lookup(old(shapes), env.withDescendants));

      var request := Request(dataUrl, apiKey, textFromShapes, previousPreviews,
                             if isDarkMode then Dark else Light);
      var tail;
      result, tail := TryGenerate(id, placeholder, request, env.reply, env.upload);
      calls := calls + tail;
      assert calls == opening + TryCalls(id, placeholder, request, env.reply, env.upload);
      AddThenRemove(old(shapes), id, placeholder);
      if result.Pass? {
        var filled := Filled(placeholder, Candidate(env.reply).value, dataUrl, id);
        AddThenReplace(old(shapes), id, placeholder, filled);
      }
    }
  }
}
